/**
 Lua tables: an array part, and a hash part in which every operation works in place
 on the node vector until a rehash sizes both parts anew.
 */
module LuaTable {
  import opened Numbers
  import opened LuaValue
  import opened TableChain
  import opened TableSizes
  import opened TableMap
  import opened TableCount
  import opened TableState
  import opened TableTraverse

  /** Where the value of a key is kept; no place at all; or a Lua error. */
  datatype Place = ArraySlot(i: nat) | NodeSlot(i: nat) | NilObject | Raised(message: string)


  datatype Op<V> = Store(k: Option<Key>, v: Option<V>) | Collect | Presize(n: nat)

  predicate Plain<V>(op: Op<V>) {
    op.Store? ==> op.k.Some? && !NaNKey(op.k.value)
  }

  /** What the first `n` operations make of a plain map. */
  ghost function Replay<V>(m: map<Key, V>, ops: seq<Op<V>>, n: nat): map<Key, V>
    requires n <= |ops| && forall i | 0 <= i < n :: Plain(ops[i])
  {
    if n == 0 then m
    else if ops[n - 1].Store? then
      assert Plain(ops[n - 1]);
      Assign(Replay(m, ops, n - 1), ops[n - 1].k.value, ops[n - 1].v)
    else Replay(m, ops, n - 1)
  }

  class Table<V> {
    const hash: Hash
    var arr: seq<Option<V>>
    var nodes: seq<Node<V>>
    /** Whether the hash part is the shared dummy node. */
    var dummy: bool
    var lsizenode: nat
    var lastfree: int
    ghost var rank: seq<real>

    ghost predicate Valid()
      reads this
    {
      && Sound(hash, arr, nodes, rank, lsizenode)
      && lastfree <= |nodes|
      && (if dummy then Dummy(nodes) && lastfree <= 0 else UsedFrom(nodes, lastfree))
    }

    ghost function Contents(): map<Key, V>
      reads this
    {
      MapOf(arr, nodes)
    }

    ghost predicate HasRoom()
      reads this
    {
      !dummy && |Used(nodes)| < |nodes|
    }

    /** A key whose insertion needs no rehash. */
    ghost predicate Fits(k: Key)
      reads this
    {
      InArray(k, |arr|) || HasRoom()
    }

    ghost predicate IsPlaceOf(p: Place, k: Key)
      reads this
    {
      match p
      case ArraySlot(i) => i < |arr| && k == At(i + 1)
      case NodeSlot(i) => i < |nodes| && nodes[i].key == Live(k) && !InArray(k, |arr|)
      case _ => false
    }

    function ValueAt(p: Place): Option<V>
      reads this
    {
      match p
      case ArraySlot(i) => if i < |arr| then arr[i] else None
      case NodeSlot(i) => if i < |nodes| then nodes[i].val else None
      case _ => None
    }

    // -------------------------------------------------------------- reading

    /** Walks the chain from a key's main position. */
    method SearchChain(k: Key) returns (n: int)
      requires Valid()
      ensures -1 <= n < |nodes|
      ensures n >= 0 ==> nodes[n].key == Live(k)
      ensures n == -1 ==> NotLive(nodes, k)
    {
      hide OnChain, Homed, Keyed;
      n := MainPosition(hash, k, |nodes|);
      ChainsFrom(hash, nodes, rank, k);
      while true
        invariant 0 <= n < |nodes|
        invariant forall j | 0 <= j < |nodes| && nodes[j].key == Live(k) :: OnChain(nodes, n, j)
        decreases Above(rank, n)
      {
        if nodes[n].key == Live(k) {
          return;
        }
        ChainGoesOn(nodes, n, k);
        LinkRises(nodes, rank, n);
        if nodes[n].next < 0 {
          return -1;
        }
        RanksAbove(rank, n, nodes[n].next);
        n := nodes[n].next;
      }
    }

    /** `luaH_getnum`. */
    method GetNum(key: int) returns (r: Place)
      requires Valid()
      ensures Found(r, At(key))
    {
      if 1 <= key <= |arr| {
        r := ArraySlot(key - 1);
      } else {
        var n := SearchChain(At(key));
        r := if n >= 0 then NodeSlot(n) else NilObject;
      }
      FoundValue(this, r, At(key));
    }

    /** `luaH_get`. */
    method Get(key: Option<Key>) returns (r: Place)
      requires Valid()
      ensures key.None? ==> r == NilObject
      ensures key.Some? ==> Found(r, key.value)
    {
      if key.None? {
        return NilObject;
      }
      var k := ArrayIndex(key.value);
      if key.value == At(k) {
        r := GetNum(k);
      } else {
        var n := SearchChain(key.value);
        r := if n >= 0 then NodeSlot(n) else NilObject;
        OnlyIntsInArray(key.value, |arr|);
        FoundValue(this, r, key.value);
      }
    }

    /** The place of the key, which holds the value that the finite map has for it. */
    ghost predicate Found(r: Place, k: Key)
      reads this
    {
      && (if r == NilObject then !InArray(k, |arr|) && NotLive(nodes, k) else IsPlaceOf(r, k))
      && (k in Contents() <==> ValueAt(r).Some?)
      && (k in Contents() ==> ValueAt(r) == Some(Contents()[k]))
    }

    // -------------------------------------------------------------- writing

    /** Stores through a place that `Set` gave out. */
    method Write(p: Place, ghost k: Key, v: Option<V>)
      requires Valid() && IsPlaceOf(p, k)
      modifies `arr, `nodes
      ensures Valid() && Contents() == Assign(old(Contents()), k, v)
      ensures arr == if p.ArraySlot? then old(arr)[p.i := v] else old(arr)
      ensures nodes == if p.ArraySlot? then old(nodes) else SetValue(old(nodes), p.i, v)
      ensures IsPlaceOf(p, k) && |arr| == |old(arr)| && |nodes| == |old(nodes)| && dummy == old(dummy)
      ensures Used(nodes) == old(Used(nodes))
    {
      hide Sound, MapOf, Assign, Used, SetValue, Dummy, UsedFrom;
      match p
      case ArraySlot(i) =>
        WrittenArray(hash, arr, nodes, rank, lsizenode, i, v);
        arr := arr[i := v];
      case NodeSlot(i) =>
        WrittenNode(hash, arr, nodes, rank, lsizenode, i, v);
        nodes := SetValue(nodes, i, v);
    }

    /** `getfreepos`: the next node below the cursor that was never used. */
    method GetFreePos() returns (n: int)
      requires Valid()
      modifies `lastfree
      ensures n == -1 ==> Valid() && !HasRoom()
      ensures n != -1 ==> !dummy && 0 <= n < |nodes| && nodes[n].key.Free? && lastfree == n && UsedFrom(nodes, n + 1)
    {
      hide Sound, Used;
      while true
        invariant lastfree <= |nodes| && if dummy then Dummy(nodes) && lastfree <= 0 else UsedFrom(nodes, lastfree)
        decreases lastfree
      {
        var more := lastfree > 0;
        lastfree := lastfree - 1;
        if !more {
          if !dummy {
            AllUsed(nodes);
          }
          return -1;
        }
        if nodes[lastfree].key.Free? {
          return lastfree;
        }
      }
    }

    /** What a place for a new key may be: a Lua error if the table would have to
        grow beyond all bounds, or else a place in an unchanged map. */
    ghost predicate Placed(r: Place, k: Key, arr0: seq<Option<V>>, nodes0: seq<Node<V>>)
      reads this
    {
      if r.Raised? then
        r.message == "table overflow" && TooMany(MapOf(arr0, nodes0).Keys + {k}) && nodes == nodes0 && Grown(arr0, arr)
      else
        Valid() && Contents() == MapOf(arr0, nodes0) && IsPlaceOf(r, k)
    }

    /** What a key that fits costs. */
    ghost predicate NoRehash(r: Place, k: Key, arr0: seq<Option<V>>, nodes0: seq<Node<V>>, dummy0: bool)
      reads this
    {
      && !r.Raised? && arr == arr0 && |nodes| == |nodes0| && dummy == dummy0
      && |Used(nodes)| <= |Used(nodes0)| + if InArray(k, |arr|) then 0 else 1
    }

    /** Both parts keep their sizes, or a rehash gave them the best ones. */
    ghost predicate Resized(keys: set<Key>, asize: nat, hsize: nat, dummy0: bool)
      reads this
    {
      || (|arr| == asize && |nodes| == hsize && dummy == dummy0)
      || BestSizes(keys, |arr|, |nodes|, dummy)
    }

    /** `newkey`: finds a node for a key that the table does not have. */
    method NewKey(key: Key) returns (r: Place)
      requires Valid() && !NaNKey(key) && !InArray(key, |arr|) && NotLive(nodes, key)
      modifies this
      ensures Placed(r, key, old(arr), old(nodes))
      ensures old(HasRoom()) ==> NoRehash(r, key, old(arr), old(nodes), old(dummy))
      ensures !r.Raised? ==> Resized(old(Contents()).Keys + {key}, |old(arr)|, |old(nodes)|, old(dummy))
      decreases if HasRoom() then 0 else 1, 2
    {
      hide Sound, KeyAdded, MainPosition, Used, NotLive, Dummy, MapOf;
      HashSize(hash, arr, nodes, rank, lsizenode);
      ghost var s := nodes;
      var mp := MainPosition(hash, key, |nodes|);
      if nodes[mp].val.Some? || dummy {
        var n := GetFreePos();
        if n == -1 {
          NotThere(arr, nodes, key);
          var ok := Rehash(key);
          if !ok {
            return Raised("table overflow");
          }
          r := Set(Some(key));
          return;
        }
        mp := MakeWay(mp, n, key);
      } else {
        PlacedHome(hash, arr, nodes, rank, lsizenode, mp, key);
        nodes := nodes[mp := nodes[mp].(key := Live(key))];
      }
      PlaceAdded(this, s, mp, key);
      r := NodeSlot(mp);
    }

    /** The main position is taken: by a guest, which moves to the free node `n`, or
        by a key at home, which the new one at `n` follows. */
    method MakeWay(mp0: nat, n: nat, key: Key) returns (mp: nat)
      requires Sound(hash, arr, nodes, rank, lsizenode)
      requires NotLive(nodes, key) && !NaNKey(key) && !InArray(key, |arr|)
      requires mp0 < |nodes| && MainPosition(hash, key, |nodes|) == mp0 && nodes[mp0].val.Some?
      requires n < |nodes| && nodes[n].key.Free?
      modifies `nodes, `rank
      ensures Sound(hash, arr, nodes, rank, lsizenode) && KeyAdded(old(nodes), nodes, key, mp)
      ensures |nodes| == |old(nodes)| && (UsedFrom(old(nodes), n + 1) ==> UsedFrom(nodes, n))
    {
      hide Linked, Homed, Keyed, OnChain, NotLive, Used, KeyAdded, NoNaN, Apart;
      mp := mp0;
      OwnersLive(hash, arr, nodes, rank, lsizenode, mp, n);
      ghost var s := nodes;
      var othern := MainPosition(hash, nodes[mp].key.k, |nodes|);
      if othern != mp {
        othern := FindPrevious(othern, mp);
        PlacedEvicting(hash, arr, nodes, rank, lsizenode, mp, othern, n, key);
        rank := rank[n := rank[mp]];
        nodes := nodes[othern := nodes[othern].(next := n)];
        nodes := nodes[n := nodes[mp]];
        nodes := nodes[mp := nodes[mp].(next := -1, val := None)];
        nodes := nodes[mp := nodes[mp].(key := Live(key))];
        assert nodes == Evict(s, mp, othern, n, key);
      } else {
        PlacedFree(hash, arr, nodes, rank, lsizenode, mp, n, key);
        rank := rank[n := Between(rank, mp, nodes[mp].next)];
        nodes := nodes[n := nodes[n].(next := nodes[mp].next)];
        nodes := nodes[mp := nodes[mp].(next := n)];
        nodes := nodes[n := nodes[n].(key := Live(key))];
        assert nodes == TakeFree(s, mp, n, key);
        mp := n;
      }
    }

    /** The node that links to `mp`, on the chain from the main position of the key there. */
    method FindPrevious(home: int, mp: int) returns (p: int)
      requires Chained(hash, nodes, rank) && 0 <= mp < |nodes| && !nodes[mp].key.Free?
      requires home == MainPosition(hash, nodes[mp].key.k, |nodes|) && home != mp
      ensures 0 <= p < |nodes| && nodes[p].next == mp
    {
      p := home;
      hide Keyed;
      HomeLeads(hash, nodes, mp);
      hide Homed, OnChain;
      ChainOn(nodes, rank, p, mp);
      while nodes[p].next != mp
        invariant 0 <= p < |nodes| && p != mp && OnChain(nodes, p, mp)
        decreases Above(rank, p)
      {
        ChainOn(nodes, rank, p, mp);
        RanksAbove(rank, p, nodes[p].next);
        p := nodes[p].next;
      }
    }

    /** `luaH_set`: the place of a key, made if need be. */
    method Set(key: Option<Key>) returns (r: Place)
      requires Valid()
      modifies this
      ensures key.None? ==> r == Raised("table index is nil")
      ensures key.Some? && NaNKey(key.value) ==> r == Raised("table index is NaN")
      ensures key.None? || NaNKey(key.value) ==> Valid() && arr == old(arr) && nodes == old(nodes)
      ensures key.Some? && !NaNKey(key.value) ==> Placed(r, key.value, old(arr), old(nodes))
      ensures key.Some? && !NaNKey(key.value) && old(Fits(key.value)) ==>
                NoRehash(r, key.value, old(arr), old(nodes), old(dummy))
      ensures key.Some? && !r.Raised? ==>
                Resized(old(Contents()).Keys + {key.value}, |old(arr)|, |old(nodes)|, old(dummy))
      ensures key.Some? && key.value in old(Contents()) ==>
                arr == old(arr) && nodes == old(nodes) && rank == old(rank) && IsPlaceOf(r, key.value)
      decreases if key.None? || Fits(key.value) then 0 else 1, 3
    {
      hide Sound, HasRoom;
      var p := Get(key);
      if p != NilObject {
        NeverNaN(this, p, key.value);
        return p;
      }
      if key.None? {
        return Raised("table index is nil");
      }
      if NaNKey(key.value) {
        return Raised("table index is NaN");
      }
      r := NewKey(key.value);
    }

    /** A place for a key that fits, and its value. */
    method Reinsert(k: Key, v: Option<V>)
      requires Valid() && Fits(k) && v.Some? && !NaNKey(k)
      modifies this
      ensures Valid() && Contents() == old(Contents())[k := v.value]
      ensures |arr| == |old(arr)| && |nodes| == |old(nodes)| && dummy == old(dummy)
      ensures |Used(nodes)| <= |old(Used(nodes))| + if InArray(k, |arr|) then 0 else 1
      decreases 0, 4
    {
      hide Valid, Sound, Fits, MapOf, Used, InArray;
      var p := Set(Some(k));
      Write(p, k, v);
    }

    /** `setnodevector`: a new, empty hash part for at least `size` keys. */
    method SetNodeVector(size: nat) returns (ok: bool)
      modifies `nodes, `dummy, `lsizenode, `lastfree, `rank
      ensures ok <==> size <= MAXASIZE
      ensures !ok ==> nodes == old(nodes) && dummy == old(dummy) && lsizenode == old(lsizenode)
                      && lastfree == old(lastfree) && rank == old(rank)
      ensures ok ==> |nodes| >= size && nodes == EmptyNodes(|nodes|) && |Used(nodes)| == 0
      ensures ok ==> NodesFor(size, |nodes|, dummy)
      ensures ok && |arr| <= MAXASIZE ==> Valid()
    {
      hide Used, Chained, Pow2;
      MaxSize();
      if size == 0 {
        EmptySound(hash, if |arr| <= MAXASIZE then arr else [], 0);
        NoBits();
        nodes, dummy, lsizenode, lastfree := EmptyNodes(1), true, 0, 0;
        rank := seq(1, _ => 0.0);
      } else {
        var lsize := CeilLog2(size);
        SliceBits(size, lsize);
        if lsize > MAXBITS {
          return false;
        }
        EmptySound(hash, if |arr| <= MAXASIZE then arr else [], lsize);
        nodes, dummy, lsizenode, lastfree := EmptyNodes(Pow2(lsize)), false, lsize, Pow2(lsize);
        rank := seq(Pow2(lsize), _ => 0.0);
      }
      return true;
    }

    /** `setarrayvector`, to grow. */
    method SetArrayVector(size: nat)
      requires size >= |arr|
      modifies `arr
      ensures |arr| == size && Grown(old(arr), arr)
    {
      arr := arr + seq(size - |arr|, _ => None);
    }

    /** `resize`: new sizes for both parts. The sizes must leave a node for each key
        outside the array part, and then no insertion on the way needs a rehash. */
    method Resize(nasize: nat, nhsize: nat) returns (ok: bool)
      requires Valid() && nasize <= MAXASIZE && |Outside(Contents().Keys, nasize)| <= nhsize
      modifies this
      ensures ok <==> nhsize <= MAXASIZE
      ensures !ok ==> nodes == old(nodes) && Grown(old(arr), arr)
      ensures ok ==> Valid() && Contents() == old(Contents()) && |arr| == nasize && NodesFor(nhsize, |nodes|, dummy)
      ensures ok && nhsize > |Outside(Contents().Keys, nasize)| ==> HasRoom()
      decreases 1, 0
    {
      hide Sound, MapOf, Used, ArrayKeys, Outside, Part, InArray, Chained, UsedFrom, HashKeys;
      ghost var all, oldarr, oldrank := Contents(), arr, rank;
      SoundParts(hash, arr, nodes, rank, lsizenode);
      var oldasize, nold := |arr|, nodes;
      if nasize > oldasize {
        SetArrayVector(nasize);
      }
      var slice := arr;
      ok := SetNodeVector(nhsize);
      if !ok {
        return;
      }
      if nasize < oldasize {
        CutArray(hash, arr, nasize, nodes, rank, lsizenode);
        arr := arr[..nasize];
      }
      ghost var done := ArrayKeys(arr);
      StartInserting(this, oldarr, nold, nasize, nhsize);
      if nasize < oldasize {
        SmallerIn(nasize, oldasize);
        for i := nasize to oldasize
          invariant Inserting(all, done, nasize, nhsize)
          invariant forall k | k in all :: k in done <==> InArray(k, i)
        {
          SliceStep(oldarr, nold, done, i);
          if slice[i].Some? {
            InsertOld(At(i + 1), slice[i], all, done, nasize, nhsize);
            done := done + {At(i + 1)};
          }
        }
      }
      NodesStart(oldarr, nold, done, nasize);
      for i := |nold| downto 0
        invariant Inserting(all, done, nasize, nhsize)
        invariant forall k | k in all :: k in done <==> InArray(k, oldasize) || NodeOf(nold, k) >= i
      {
        NodeStep(hash, oldarr, nold, oldrank, done, i);
        if nold[i].val.Some? {
          InsertOld(nold[i].key.k, nold[i].val, all, done, nasize, nhsize);
          done := done + {nold[i].key.k};
        }
      }
      EndInserting(this, oldarr, nold, done, nasize, nhsize);
    }

    /** Of the old map `all`, the keys `done` are in the new parts, and only those
        use nodes. */
    ghost predicate Inserting(all: map<Key, V>, done: set<Key>, nasize: nat, nhsize: nat)
      reads this
    {
      && Valid() && |arr| == nasize && NodesFor(nhsize, |nodes|, dummy)
      && |Outside(all.Keys, nasize)| <= nhsize
      && done <= all.Keys && Contents() == Part(all, done) && |Used(nodes)| <= |Outside(done, nasize)|
    }

    method InsertOld(k: Key, v: Option<V>, ghost all: map<Key, V>, ghost done: set<Key>, ghost nasize: nat, ghost nhsize: nat)
      requires Inserting(all, done, nasize, nhsize) && k in all && k !in done && v == Some(all[k]) && !NaNKey(k)
      modifies this
      ensures Inserting(all, done + {k}, nasize, nhsize)
      decreases 0, 5
    {
      hide Sound, MapOf, Used, Outside, Part, InArray, Dummy, UsedFrom;
      RoomFor(done, all.Keys, k, nasize);
      PartMore(all, done, k);
      Reinsert(k, v);
    }

    method Rehash(ek: Key) returns (ok: bool)
      requires Valid() && ek !in Contents()
      modifies this
      ensures !ok ==> TooMany(old(Contents()).Keys + {ek}) && nodes == old(nodes) && Grown(old(arr), arr)
      ensures ok ==> Valid() && Contents() == old(Contents()) && Fits(ek)
      ensures ok ==> BestSizes(old(Contents()).Keys + {ek}, |arr|, |nodes|, dummy)
      decreases 1, 1
    {
      hide Sound, MapOf, Used, UpTo, Outside, Optimal, InArray, IntKeys, Counted, Chained, Dummy, UsedFrom;
      ghost var keys := Contents().Keys + {ek};
      var nums := new nat[MAXBITS + 1](_ => 0);
      SoundParts(hash, arr, nodes, rank, lsizenode);
      var totaluse, nasize := CountKeys(arr, nodes, rank, ek, nums);
      IntKeysInRange(keys);
      var na, n := ComputeSizes(IntKeys(keys), nums, nasize);
      OutsideCount(keys, n);
      OutsideWithout(Contents().Keys, ek, n);
      ok := Resize(n, totaluse - na);
      assert !ok ==> TooManyFor(keys, n);
    }

    // -------------------------------------------------------------- borders

    /** `unbound_search`, from an index `j0` that is 0 or present: doubles the index
        until one is absent, and falls back on a linear search at the end of `int`. */
    method UnboundSearch(j0: nat) returns (n: nat)
      requires Valid() && j0 == |arr| && (j0 == 0 || HasIndex(Contents(), j0))
      ensures Border(Contents(), n) && n <= MAX_INT
      ensures !HasIndex(Contents(), j0 + 1) ==> n == j0
    {
      hide Valid, MapOf, Border;
      SlotBounds(this);
      var i, j := j0, j0 + 1;
      while true
        invariant (i == 0 || HasIndex(Contents(), i)) && 0 <= i < j <= MAX_INT
        invariant (i == j0 && j == j0 + 1) || HasIndex(Contents(), j0 + 1)
        decreases MAX_INT - j
      {
        var p := GetNum(j);
        if ValueAt(p).None? {
          break;
        }
        i, j := j, j * 2;
        if j > MAX_INT {
          n := LinearSearch();
          return;
        }
      }
      while j - i > 1
        invariant (i == 0 || HasIndex(Contents(), i)) && !HasIndex(Contents(), j) && 0 <= i < j <= MAX_INT
        invariant (i == j0 && j == j0 + 1) || HasIndex(Contents(), j0 + 1)
        decreases j - i
      {
        var m := (i + j) / 2;
        var p := GetNum(m);
        if ValueAt(p).None? {
          j := m;
        } else {
          i := m;
        }
      }
      BorderAt(Contents(), i, j);
      return i;
    }

    /** The first index that is absent ends the search: no table has more keys than slots. */
    method LinearSearch() returns (n: nat)
      requires Valid()
      ensures Border(Contents(), n) && n <= |arr| + |nodes| <= MAX_INT
    {
      hide Valid, MapOf, Border;
      SlotBounds(this);
      var i: nat := 1;
      while true
        invariant i >= 1 && forall q | 1 <= q < i :: HasIndex(Contents(), q)
        decreases |arr| + |nodes| + 1 - i
      {
        PassedIndices(Contents(), i - 1);
        var p := GetNum(i);
        if ValueAt(p).None? {
          break;
        }
        PassedIndices(Contents(), i);
        i := i + 1;
      }
      BorderAt(Contents(), i - 1, i);
      return i - 1;
    }

    /** `luaH_getn`, the length operator. */
    method GetN() returns (n: nat)
      requires Valid()
      ensures Border(Contents(), n) && n <= MAX_INT
      ensures |arr| > 0 && arr[|arr| - 1].None? ==> n < |arr|
      ensures (|arr| == 0 || arr[|arr| - 1].Some?) && !HasIndex(Contents(), |arr| + 1) ==> n == |arr|
    {
      hide Valid, MapOf, Border;
      SlotBounds(this);
      var j := |arr|;
      if j > 0 && arr[j - 1].None? {
        var i := 0;
        while j - i > 1
          invariant 0 <= i < j <= |arr| && arr[j - 1].None? && (i == 0 || arr[i - 1].Some?)
          decreases j - i
        {
          var m := (i + j) / 2;
          if arr[m - 1].None? {
            j := m;
          } else {
            i := m;
          }
        }
        if i > 0 {
          IndexIn(this, i);
        }
        IndexIn(this, j);
        BorderAt(Contents(), i, j);
        return i;
      } else if dummy {
        if j > 0 {
          IndexIn(this, j);
        }
        IndexIn(this, j + 1);
        BorderAt(Contents(), j, j + 1);
        return j;
      } else {
        if j > 0 {
          IndexIn(this, j);
        }
        n := UnboundSearch(j);
      }
    }

    // -------------------------------------------------------------- traversal

    /** The traversal index of a key: in the array part, or the first node on its
        chain that holds it, dead or alive. */
    ghost predicate IndexOf(i: int, k: Key)
      reads this
    {
      if InArray(k, |arr|) then i == k.n.i - 1
      else
        && |arr| <= i < |arr| + |nodes| && Matches(nodes[i - |arr|], k)
        && |rank| == |nodes| && forall m | 0 <= m < |nodes| && Matches(nodes[m], k) :: rank[i - |arr|] <= rank[m]
    }

    /** `findindex`: -1 starts a traversal; `ok` is false for the error "invalid key to 'next'". */
    method FindIndex(key: Option<Key>) returns (ok: bool, i: int)
      requires Valid()
      ensures key.None? ==> ok && i == -1
      ensures key.Some? && ok ==> IndexOf(i, key.value)
      ensures key.Some? && !ok ==> !InArray(key.value, |arr|) && forall m | 0 <= m < |nodes| :: !Matches(nodes[m], key.value)
    {
      hide Chained, Matches, Apart, NoNaN;
      if key.None? {
        return true, -1;
      }
      var k := ArrayIndex(key.value);
      IndexInArray(key.value, |arr|);
      if 0 < k <= |arr| {
        return true, k - 1;
      }
      var n := SearchDeadOrAlive(key.value);
      return n >= 0, n + |arr|;
    }

    /** The first node on a key's chain that holds it, dead or alive. */
    method SearchDeadOrAlive(k: Key) returns (n: int)
      requires Valid()
      ensures -1 <= n < |nodes| && |rank| == |nodes|
      ensures n >= 0 ==> Matches(nodes[n], k) && forall m | 0 <= m < |nodes| && Matches(nodes[m], k) :: rank[n] <= rank[m]
      ensures n == -1 ==> forall m | 0 <= m < |nodes| :: !Matches(nodes[m], k)
    {
      hide OnChain, Homed, Keyed, Matches;
      n := MainPosition(hash, k, |nodes|);
      MatchesFrom(hash, nodes, rank, k);
      while true
        invariant 0 <= n < |nodes|
        invariant forall j | 0 <= j < |nodes| && Matches(nodes[j], k) :: OnChain(nodes, n, j)
        decreases Above(rank, n)
      {
        if Matches(nodes[n], k) {
          FirstMatch(nodes, rank, n, k);
          return;
        }
        MatchGoesOn(nodes, n, k);
        LinkRises(nodes, rank, n);
        if nodes[n].next < 0 {
          return -1;
        }
        RanksAbove(rank, n, nodes[n].next);
        n := nodes[n].next;
      }
    }

    /** `luaH_next`: the entry that follows a key, the first one for nil. */
    method Next(key: Option<Key>) returns (ok: bool, e: Option<(Key, V)>, ghost i: int, ghost j: int)
      requires Valid()
      ensures key.None? ==> ok && i == -1
      ensures key.Some? && ok ==> IndexOf(i, key.value)
      ensures key.Some? && !ok ==> !InArray(key.value, |arr|) && forall m | 0 <= m < |nodes| :: !Matches(nodes[m], key.value)
      ensures ok ==> -1 <= i < j <= |arr| + |nodes| && forall p | i < p < j :: EntryAt(arr, nodes, p) == []
      ensures ok ==> if j < |arr| + |nodes| then e.Some? && EntryAt(arr, nodes, j) == [e.value] else e.None?
    {
      hide Sound;
      var p: int;
      ok, p := FindIndex(key);
      i, j, e := p, p + 1, None;
      if !ok {
        return;
      }
      p := p + 1;
      while p < |arr|
        invariant i < p && (p <= |arr| || p == i + 1) && p <= |arr| + |nodes|
        invariant forall q | i < q < p :: EntryAt(arr, nodes, q) == []
      {
        if arr[p].Some? {
          j, e := p, Some((At(p + 1), arr[p].value));
          return;
        }
        p := p + 1;
      }
      p := p - |arr|;
      while p < |nodes|
        invariant 0 <= p <= |nodes| && i < p + |arr|
        invariant forall q | i < q < p + |arr| :: EntryAt(arr, nodes, q) == []
      {
        ValuedIsLive(hash, arr, nodes, rank, lsizenode, p);
        if nodes[p].val.Some? {
          j, e := p + |arr|, Some((nodes[p].key.k, nodes[p].val.value));
          return;
        }
        p := p + 1;
      }
      j := p + |arr|;
    }

    /** The entries in the order of a traversal. */
    ghost function Entries(): seq<(Key, V)>
      reads this
    {
      EntriesFrom(arr, nodes, 0)
    }

    /** A loop over `next` that clears some of the keys it visits, with a collection
        after each: it still visits every entry that there was at the start, once. */
    method Traverse(clear: Key -> bool) returns (visited: seq<(Key, V)>)
      requires Valid()
      modifies this
      ensures visited == old(Entries())
      ensures Valid() && Contents() == Kept(old(Contents()), clear)
    {
      hide Sound, MapOf, EntryAt, EntriesFrom, Thinned, Kept, Remaining, Traversing, StandsAt, KeysOf;
      ghost var arr0, nodes0 := arr, nodes;
      ghost var pos: nat := 0;
      var key: Option<Key> := None;
      visited := [];
      StartTraversal(this, clear);
      assert [] + EntriesFrom(arr0, nodes0, 0) == EntriesFrom(arr0, nodes0, 0);
      while true
        invariant Traversing(arr0, nodes0, pos, key) && pos <= |arr0| + |nodes0|
        invariant visited + EntriesFrom(arr0, nodes0, pos) == EntriesFrom(arr0, nodes0, 0)
        invariant Contents() == Remaining(MapOf(arr0, nodes0), visited, clear)
        decreases |arr0| + |nodes0| - pos
      {
        TraversalValid(this, arr0, nodes0, pos, key);
        var ok, e, i, j := Next(key);
        NextStands(this, arr0, nodes0, pos, key, ok, i, j);
        SkipEmpty(arr0, nodes0, pos, j);
        if e.None? {
          EndTraversal(this, arr0, nodes0, visited, clear, pos, key);
          return;
        }
        NextEntry(this, arr0, nodes0, pos, key, j, e.value);
        MoveEntry(visited, e.value, EntriesFrom(arr0, nodes0, j + 1));
        RemainingMore(MapOf(arr0, nodes0), visited, clear, e.value);
        visited := visited + [e.value];
        key, pos := Some(e.value.0), j + 1;
        if clear(e.value.0) {
          ClearVisited(arr0, nodes0, pos, e.value.0);
        }
      }
    }

    /** `t[k] = nil` for the key just visited, and a collection. */
    method ClearVisited(ghost arr0: seq<Option<V>>, ghost nodes0: seq<Node<V>>, ghost pos: nat, k: Key)
      requires Traversing(arr0, nodes0, pos, Some(k)) && k in Contents() && !NaNKey(k)
      modifies this
      ensures Traversing(arr0, nodes0, pos, Some(k)) && Contents() == old(Contents()) - {k}
    {
      hide Sound, MapOf, EntryAt, Thinned, StandsAt, Keyed, Apart, SameEntries, UsedFrom, Dummy, Used, SetValue;
      ghost var a, s := arr, nodes;
      var p := Set(Some(k));
      Write(p, k, None);
      WrittenBehind(this, arr0, nodes0, a, s, pos, k, p);
      ghost var s1 := nodes;
      ClearEmpty();
      ThinnedTwice(nodes0, s1, nodes);
      SameTwice(arr0, nodes0, arr, s1, nodes, pos);
    }

    /** What a traversal relies on: behind its position nothing changed since the start. */
    ghost predicate Traversing(arr0: seq<Option<V>>, nodes0: seq<Node<V>>, pos: nat, key: Option<Key>)
      reads this
    {
      && Valid() && |rank| == |nodes0| == |nodes| && Keyed(nodes0, rank) && Apart(arr0, nodes0) && NoNaN(nodes0) && Thinned(nodes0, nodes)
      && SameEntries(arr0, nodes0, arr, nodes, pos) && pos <= |arr| + |nodes|
      && if key.None? then pos == 0 else pos > 0 && StandsAt(arr0, nodes0, pos - 1, key.value)
    }

    // -------------------------------------------------------------- whole operations

    /** `luaH_new`. */
    constructor (hash: Hash, narray: nat, nhash: nat)
      requires narray <= MAXASIZE && nhash <= MAXASIZE
      ensures Valid() && Contents() == map[] && |arr| == narray && |nodes| >= nhash && this.hash == hash
      ensures NodesFor(nhash, |nodes|, dummy) && |Used(nodes)| == 0
    {
      this.hash := hash;
      arr, nodes, dummy, lsizenode, lastfree, rank := [], [], true, 0, 0, [];
      new;
      SetArrayVector(narray);
      var ok := SetNodeVector(nhash);
      NothingIn(arr, nodes);
    }

    /** `lua_rawset`: assignment, where nil as value removes the key. */
    method RawSet(key: Option<Key>, v: Option<V>) returns (error: string)
      requires Valid()
      modifies this
      ensures key.None? ==> error == "table index is nil" && Valid() && Contents() == old(Contents())
      ensures key.Some? && NaNKey(key.value) ==> error == "table index is NaN" && Valid() && Contents() == old(Contents())
      ensures key.Some? && !NaNKey(key.value) && error == "" ==>
                Valid() && Contents() == Assign(old(Contents()), key.value, v)
      ensures key.Some? && !NaNKey(key.value) && error != "" ==>
                error == "table overflow" && TooMany(old(Contents()).Keys + {key.value})
      ensures key.Some? && !NaNKey(key.value) && old(Fits(key.value)) ==>
                && error == "" && |arr| == |old(arr)| && |nodes| == |old(nodes)| && dummy == old(dummy)
                && |Used(nodes)| <= |old(Used(nodes))| + 1
      ensures key.Some? && error == "" ==>
                Resized(old(Contents()).Keys + {key.value}, |old(arr)|, |old(nodes)|, old(dummy))
    {
      hide Sound, MapOf, Used, InArray, Dummy, UsedFrom, Grown;
      var p := Set(key);
      if p.Raised? {
        return p.message;
      }
      Write(p, key.value, v);
      return "";
    }

    /** `luaH_resizearray`. A hash part that keeps its size must take what is cut off. */
    method ResizeArray(nasize: nat)
      requires Valid() && nasize <= MAXASIZE
      requires nasize < |arr| ==> |Outside(Contents().Keys, nasize)| <= if dummy then 0 else |nodes|
      modifies this
      ensures Valid() && Contents() == old(Contents()) && |arr| == nasize
    {
      hide Outside, MapOf;
      var nsize := if dummy then 0 else |nodes|;
      HashFits(this, if nasize < |arr| then |arr| else nasize);
      var ok := Resize(nasize, nsize);
    }

    /** The collector's pass over a table: keys without a value die. */
    method ClearEmpty()
      requires Valid()
      modifies `nodes
      ensures Valid() && Contents() == old(Contents()) && Thinned(old(nodes), nodes)
      ensures SameEntries(arr, old(nodes), arr, nodes, 0)
    {
      hide Sound, MapOf, Used, Thinned, EntryAt, Dummy, UsedFrom;
      ThinnedNot(nodes);
      for i := |nodes| downto 0
        invariant Valid() && Contents() == old(Contents()) && |nodes| == |old(nodes)| && Thinned(old(nodes), nodes)
        invariant SameEntries(arr, old(nodes), arr, nodes, 0)
      {
        if nodes[i].val.None? {
          ClearOne(hash, arr, nodes, rank, lsizenode, i);
          ThinnedMore(old(nodes), nodes, i);
          nodes := nodes[i := Cleared(nodes[i])];
        }
      }
    }

    // -------------------------------------------------------------- runs

    /** Any sequence of assignments, collections and array extensions: the table is
        the plain map that they build. A nil or NaN key stops the run with its error
        and changes nothing; the table overflows only if with its best array part more
        than 2^26 keys would be left for the hash part. */
    method Run(ops: seq<Op<V>>) returns (error: string, n: nat)
      requires Valid() && forall i | 0 <= i < |ops| && ops[i].Presize? :: ops[i].n <= MAXASIZE
      modifies this
      ensures n <= |ops| && forall i | 0 <= i < n :: Plain(ops[i])
      ensures error == "" ==> n == |ops|
      ensures error != "" ==> n < |ops| && ops[n].Store? && (!Plain(ops[n]) <==> error != "table overflow")
      ensures error != "table overflow" ==> Valid() && Contents() == Replay(old(Contents()), ops, n)
      ensures error == "table overflow" ==> TooMany(Replay(old(Contents()), ops, n).Keys + {ops[n].k.value})
    {
      hide Valid, MapOf, NaNKey;
      error, n := "", 0;
      while n < |ops|
        invariant n <= |ops| && forall i | 0 <= i < n :: Plain(ops[i])
        invariant Valid() && Contents() == Replay(old(Contents()), ops, n)
      {
        match ops[n] {
          case Store(k, v) =>
            var e := RawSet(k, v);
            if e != "" {
              return e, n;
            }
          case Collect =>
            ClearEmpty();
          case Presize(size) =>
            if size > |arr| {
              ResizeArray(size);
            }
        }
        n := n + 1;
      }
    }
  }

  lemma MatchesFrom<V>(hash: Hash, nodes: seq<Node<V>>, rank: seq<real>, k: Key)
    requires Chained(hash, nodes, rank) && |nodes| > 0
    ensures forall j | 0 <= j < |nodes| && Matches(nodes[j], k) :: OnChain(nodes, MainPosition(hash, k, |nodes|), j)
  {
  }

  lemma MatchGoesOn<V>(nodes: seq<Node<V>>, n: nat, k: Key)
    requires n < |nodes| && !Matches(nodes[n], k)
    requires forall j | 0 <= j < |nodes| && Matches(nodes[j], k) :: OnChain(nodes, n, j)
    ensures forall j | 0 <= j < |nodes| && Matches(nodes[j], k) :: OnChain(nodes, nodes[n].next, j) && nodes[n].next != -1
  {
    forall j | 0 <= j < |nodes| && Matches(nodes[j], k) ensures OnChain(nodes, nodes[n].next, j) && nodes[n].next != -1 {
      ChainStep(nodes, n, j);
      LeadsOn(nodes, nodes[n].next, j);
    }
  }

  lemma FirstMatch<V>(nodes: seq<Node<V>>, rank: seq<real>, n: nat, k: Key)
    requires Linked(nodes, rank) && n < |nodes|
    requires forall j | 0 <= j < |nodes| && Matches(nodes[j], k) :: OnChain(nodes, n, j)
    ensures |rank| == |nodes| && forall j | 0 <= j < |nodes| && Matches(nodes[j], k) :: rank[n] <= rank[j]
  {
    forall j | 0 <= j < |nodes| && Matches(nodes[j], k) ensures rank[n] <= rank[j] {
      ChainRises(nodes, rank, n, j);
    }
  }

  lemma ValuedIsLive<V>(hash: Hash, arr: seq<Option<V>>, nodes: seq<Node<V>>, rank: seq<real>, lsize: nat, p: nat)
    requires Sound(hash, arr, nodes, rank, lsize) && p < |nodes|
    ensures nodes[p].val.Some? ==> nodes[p].key.Live?
  {
  }

  /** The keys that a clearing traversal leaves. */
  ghost function Kept<V>(m: map<Key, V>, clear: Key -> bool): map<Key, V> {
    map k | k in m && !clear(k) :: m[k]
  }

  ghost function Remaining<V>(m: map<Key, V>, visited: seq<(Key, V)>, clear: Key -> bool): map<Key, V> {
    map k | k in m && !(clear(k) && k in KeysOf(visited)) :: m[k]
  }

  lemma StartTraversal<V>(t: Table<V>, clear: Key -> bool)
    requires t.Valid()
    ensures t.Traversing(t.arr, t.nodes, 0, None)
    ensures t.Contents() == Remaining(t.Contents(), [], clear)
  {
    ThinnedNot(t.nodes);
    SoundParts(t.hash, t.arr, t.nodes, t.rank, t.lsizenode);
  }

  lemma TraversalValid<V>(t: Table<V>, arr0: seq<Option<V>>, nodes0: seq<Node<V>>, pos: nat, key: Option<Key>)
    requires t.Traversing(arr0, nodes0, pos, key)
    ensures t.Valid() && |t.arr| == |arr0| && |t.nodes| == |nodes0|
  {
  }

  /** Looking up the key last visited leads back to where it was visited. */
  lemma NextStands<V>(t: Table<V>, arr0: seq<Option<V>>, nodes0: seq<Node<V>>, pos: nat, key: Option<Key>, ok: bool, i: int, j: int)
    requires t.Traversing(arr0, nodes0, pos, key)
    requires key.None? ==> ok && i == -1
    requires key.Some? && ok ==> t.IndexOf(i, key.value)
    requires key.Some? && !ok ==> !InArray(key.value, |t.arr|) && forall m | 0 <= m < |t.nodes| :: !Matches(t.nodes[m], key.value)
    requires ok ==> i < j && forall p | i < p < j :: EntryAt(t.arr, t.nodes, p) == []
    ensures ok && i == pos - 1 && pos <= j
    ensures forall p | pos <= p < j :: EntryAt(arr0, nodes0, p) == []
  {
    hide Sound, EntryAt;
    if key.Some? && !InArray(key.value, |arr0|) {
      var n := pos - 1 - |arr0|;
      assert Matches(t.nodes[n], key.value);
      StillFound(nodes0, t.nodes, t.rank, n, i - |arr0|, key.value);
    }
    forall p | pos <= p < j ensures EntryAt(arr0, nodes0, p) == [] {
      assert EntryAt(t.arr, t.nodes, p) == [];
    }
  }

  lemma NextEntry<V>(t: Table<V>, arr0: seq<Option<V>>, nodes0: seq<Node<V>>, pos: nat, key: Option<Key>, j: nat, e: (Key, V))
    requires t.Traversing(arr0, nodes0, pos, key) && pos <= j < |arr0| + |nodes0|
    requires EntryAt(t.arr, t.nodes, j) == [e]
    ensures t.Traversing(arr0, nodes0, j + 1, Some(e.0)) && EntryAt(arr0, nodes0, j) == [e]
    ensures e.0 in t.Contents() && e.0 in MapOf(arr0, nodes0) && !NaNKey(e.0)
  {
    assert EntryAt(t.arr, t.nodes, j) == EntryAt(arr0, nodes0, j);
    EntryIs(arr0, nodes0, t.rank, j);
    SoundParts(t.hash, t.arr, t.nodes, t.rank, t.lsizenode);
    EntryIs(t.arr, t.nodes, t.rank, j);
    hide Sound, MapOf, Keyed, Apart, Thinned;
  }

  lemma MoveEntry<T>(s: seq<T>, e: T, rest: seq<T>)
    ensures s + ([e] + rest) == s + [e] + rest
  {
  }

  lemma RemainingMore<V>(m: map<Key, V>, visited: seq<(Key, V)>, clear: Key -> bool, e: (Key, V))
    requires e.0 in m
    ensures Remaining(m, visited + [e], clear) ==
            if clear(e.0) then Remaining(m, visited, clear) - {e.0} else Remaining(m, visited, clear)
  {
    assert KeysOf(visited + [e]) == KeysOf(visited) + {e.0} by {
      forall k | k in KeysOf(visited) ensures k in KeysOf(visited + [e]) {
        var j :| 0 <= j < |visited| && visited[j].0 == k;
        assert (visited + [e])[j].0 == k;
      }
      assert (visited + [e])[|visited|].0 == e.0;
    }
  }

  lemma EndTraversal<V>(t: Table<V>, arr0: seq<Option<V>>, nodes0: seq<Node<V>>, visited: seq<(Key, V)>, clear: Key -> bool,
                        pos: nat, key: Option<Key>)
    requires t.Traversing(arr0, nodes0, pos, key)
    requires visited + EntriesFrom(arr0, nodes0, |arr0| + |nodes0|) == EntriesFrom(arr0, nodes0, 0)
    ensures visited == EntriesFrom(arr0, nodes0, 0)
    ensures Remaining(MapOf(arr0, nodes0), visited, clear) == Kept(MapOf(arr0, nodes0), clear)
  {
    assert visited + [] == visited;
    EntriesMap(arr0, nodes0, t.rank);
  }

  /** Only what lies before the position was written. */
  lemma WrittenBehind<V>(t: Table<V>, arr0: seq<Option<V>>, nodes0: seq<Node<V>>, a: seq<Option<V>>, s: seq<Node<V>>, pos: nat, k: Key, p: Place)
    requires |t.rank| == |nodes0| && Keyed(nodes0, t.rank) && Thinned(nodes0, s) && SameEntries(arr0, nodes0, a, s, pos)
    requires pos > 0 && StandsAt(arr0, nodes0, pos - 1, k)
    requires t.IsPlaceOf(p, k) && |t.arr| == |a| && |t.nodes| == |s|
    requires t.arr == if p.ArraySlot? then a[p.i := None] else a
    requires p.NodeSlot? ==> s[p.i].key == Live(k)
    requires t.nodes == if p.ArraySlot? then s else SetValue(s, p.i, None)
    ensures Thinned(nodes0, t.nodes) && SameEntries(arr0, nodes0, t.arr, t.nodes, pos)
  {
    if p.NodeSlot? {
      assert nodes0[p.i].key == Live(k);
      ThinnedMore(nodes0, s, p.i);
    }
    forall i | pos <= i ensures EntryAt(t.arr, t.nodes, i) == EntryAt(arr0, nodes0, i) {
      assert EntryAt(a, s, i) == EntryAt(arr0, nodes0, i);
    }
  }

  lemma ThinnedTwice<V>(r: seq<Node<V>>, s: seq<Node<V>>, t: seq<Node<V>>)
    requires Thinned(r, s) && Thinned(s, t)
    ensures Thinned(r, t)
  {
  }

  lemma SameTwice<V>(arr0: seq<Option<V>>, r: seq<Node<V>>, arr: seq<Option<V>>, s: seq<Node<V>>, t: seq<Node<V>>, pos: int)
    requires SameEntries(arr0, r, arr, s, pos) && SameEntries(arr, s, arr, t, 0) && pos >= 0
    ensures SameEntries(arr0, r, arr, t, pos)
  {
  }

  lemma SlotBounds<V>(t: Table<V>)
    requires t.Valid()
    ensures |t.Contents()| <= |t.arr| + |t.nodes| && |t.arr| + |t.nodes| < MAX_INT && |t.arr| <= MAXASIZE
  {
    MaxSize();
    PowMonotone(t.lsizenode, MAXBITS);
    MapSize(t.arr, t.nodes, t.rank);
  }

  lemma IndexIn<V>(t: Table<V>, i: nat)
    requires t.Valid() && i > 0
    ensures i <= |t.arr| ==> (HasIndex(t.Contents(), i) <==> t.arr[i - 1].Some?)
    ensures i > |t.arr| && t.dummy ==> !HasIndex(t.Contents(), i)
  {
    MapAt(t.arr, t.nodes, At(i));
  }

  lemma BorderAt<V>(m: map<Key, V>, i: nat, j: nat)
    requires (i == 0 || HasIndex(m, i)) && !HasIndex(m, j) && j == i + 1
    ensures Border(m, i)
  {
  }

  lemma NothingIn<V>(arr: seq<Option<V>>, nodes: seq<Node<V>>)
    requires forall i | 0 <= i < |arr| :: arr[i].None?
    requires forall i | 0 <= i < |nodes| :: nodes[i].key.Free?
    ensures MapOf(arr, nodes) == map[]
  {
    forall k ensures k !in MapOf(arr, nodes) {
      MapAt(arr, nodes, k);
    }
  }

  lemma HashFits<V>(t: Table<V>, n: nat)
    requires t.Valid() && n >= |t.arr|
    ensures |t.nodes| <= MAXASIZE
    ensures |Outside(t.Contents().Keys, n)| <= if t.dummy then 0 else |t.nodes|
  {
    MaxSize();
    PowMonotone(t.lsizenode, MAXBITS);
    MapKeys(t.arr, t.nodes, t.rank);
    assert Outside(t.Contents().Keys, n) <= HashKeys(t.nodes);
    SubsetSize(Outside(t.Contents().Keys, n), HashKeys(t.nodes));
    if t.dummy {
      assert HashKeys(t.nodes) == {};
    } else {
      HashKeysSize(t.nodes, t.rank, 0);
      assert t.nodes[0..] == t.nodes;
    }
  }

  lemma {:induction false} HashKeysSize<V>(nodes: seq<Node<V>>, rank: seq<real>, i: nat)
    requires |rank| == |nodes| && Keyed(nodes, rank) && i <= |nodes|
    ensures |HashKeys(nodes[i..])| <= |nodes| - i
    decreases |nodes| - i
  {
    hide HashKeys, Keyed;
    if i == |nodes| {
      assert nodes[i..] == [];
      NoHashKeys<V>();
    } else {
      HashKeysStep(nodes, rank, i);
      HashKeysSize(nodes, rank, i + 1);
    }
  }

  lemma ThinnedNot<V>(nodes: seq<Node<V>>)
    ensures Thinned(nodes, nodes)
  {
  }

  lemma ClearOne<V>(hash: Hash, arr: seq<Option<V>>, nodes: seq<Node<V>>, rank: seq<real>, lsize: nat, i: nat)
    requires Sound(hash, arr, nodes, rank, lsize) && i < |nodes| && nodes[i].val.None?
    ensures var t := nodes[i := Cleared(nodes[i])];
            && Sound(hash, arr, t, rank, lsize) && MapOf(arr, t) == MapOf(arr, nodes)
            && (Dummy(nodes) ==> Dummy(t)) && (forall from :: UsedFrom(nodes, from) ==> UsedFrom(t, from))
            && SameEntries(arr, nodes, arr, t, 0)
  {
    hide Linked, Homed, Keyed, MapOf, SameMap, Cleared, Apart, NoNaN, UsedFrom, SameEntries;
    ClearedChained(hash, nodes, rank, i);
    SameMapOf(arr, nodes, nodes[i := Cleared(nodes[i])]);
    ClearRest(arr, nodes, i);
  }

  lemma ClearRest<V>(arr: seq<Option<V>>, nodes: seq<Node<V>>, i: nat)
    requires Apart(arr, nodes) && NoNaN(nodes) && i < |nodes| && nodes[i].val.None?
    ensures var t := nodes[i := Cleared(nodes[i])];
            && Apart(arr, t) && NoNaN(t) && SameEntries(arr, nodes, arr, t, 0)
            && (nodes[i].key.Free? ==> t == nodes) && forall from :: UsedFrom(nodes, from) ==> UsedFrom(t, from)
  {
    hide MapOf;
    var t := nodes[i := Cleared(nodes[i])];
    forall p ensures EntryAt(arr, t, p) == EntryAt(arr, nodes, p) {
    }
    hide EntryAt;
  }

  lemma CutArray<V>(hash: Hash, arr: seq<Option<V>>, n: nat, nodes: seq<Node<V>>, rank: seq<real>, lsize: nat)
    requires Sound(hash, arr, nodes, rank, lsize) && n <= |arr|
    ensures Sound(hash, arr[..n], nodes, rank, lsize)
  {
    hide Chained;
  }

  lemma StartInserting<V>(t: Table<V>, oldarr: seq<Option<V>>, nold: seq<Node<V>>, nasize: nat, nhsize: nat)
    requires t.Valid() && |t.arr| == nasize && NodesFor(nhsize, |t.nodes|, t.dummy)
    requires t.nodes == EmptyNodes(|t.nodes|) && |Used(t.nodes)| == 0
    requires forall i | 0 <= i < |t.arr| :: t.arr[i] == if i < |oldarr| then oldarr[i] else None
    requires |Outside(MapOf(oldarr, nold).Keys, nasize)| <= nhsize
    ensures t.Inserting(MapOf(oldarr, nold), ArrayKeys(t.arr), nasize, nhsize)
    ensures forall k | k in MapOf(oldarr, nold) :: k in ArrayKeys(t.arr) <==> InArray(k, |t.arr|) && InArray(k, |oldarr|)
  {
    hide Sound, MapOf, Part, ArrayKeys, InArray;
    PartOfArray(oldarr, nold, t.arr, t.nodes);
  }

  lemma SmallerIn(m: nat, n: nat)
    requires m <= n
    ensures forall k :: InArray(k, m) ==> InArray(k, n)
  {
  }

  /** Slot `i` of the old array part. */
  lemma SliceStep<V>(oldarr: seq<Option<V>>, nold: seq<Node<V>>, done: set<Key>, i: nat)
    requires i < |oldarr| && forall k | k in MapOf(oldarr, nold) :: k in done <==> InArray(k, i)
    ensures var all := MapOf(oldarr, nold);
            if oldarr[i].Some? then
              At(i + 1) in all && At(i + 1) !in done && oldarr[i] == Some(all[At(i + 1)])
              && forall k | k in all :: k in done + {At(i + 1)} <==> InArray(k, i + 1)
            else forall k | k in all :: k in done <==> InArray(k, i + 1)
  {
    MapAt(oldarr, nold, At(i + 1));
    hide MapOf;
    forall k ensures InArray(k, i + 1) <==> InArray(k, i) || k == At(i + 1) {
      if InArray(k, i + 1) && !InArray(k, i) {
        assert k == NumKey(k.n) && k.n == Int(k.n.i);
      }
    }
  }

  lemma NodesStart<V>(oldarr: seq<Option<V>>, nold: seq<Node<V>>, done: set<Key>, nasize: nat)
    requires forall k | k in MapOf(oldarr, nold) ::
               k in done <==> if nasize < |oldarr| then InArray(k, |oldarr|) else InArray(k, nasize) && InArray(k, |oldarr|)
    ensures forall k | k in MapOf(oldarr, nold) :: k in done <==> InArray(k, |oldarr|) || NodeOf(nold, k) >= |nold|
  {
  }

  /** Node `i` of the old hash part. */
  lemma NodeStep<V>(hash: Hash, oldarr: seq<Option<V>>, nold: seq<Node<V>>, rank: seq<real>, done: set<Key>, i: nat)
    requires |rank| == |nold| && Keyed(nold, rank) && Apart(oldarr, nold) && NoNaN(nold) && i < |nold|
    requires forall k | k in MapOf(oldarr, nold) :: k in done <==> InArray(k, |oldarr|) || NodeOf(nold, k) >= i + 1
    ensures var all := MapOf(oldarr, nold);
            if nold[i].val.Some? then
              && nold[i].key.Live?
              && var key := nold[i].key.k;
                 key in all && key !in done && nold[i].val == Some(all[key]) && !NaNKey(key)
                 && forall k | k in all :: k in done + {key} <==> InArray(k, |oldarr|) || NodeOf(nold, k) >= i
            else forall k | k in all :: k in done <==> InArray(k, |oldarr|) || NodeOf(nold, k) >= i
  {
    hide MapOf;
    if nold[i].val.Some? {
      NodeIs(nold, rank, i);
      MapAt(oldarr, nold, nold[i].key.k);
    } else {
      forall k | k in MapOf(oldarr, nold) && !InArray(k, |oldarr|) ensures NodeOf(nold, k) != i {
        MapAt(oldarr, nold, k);
      }
    }
  }

  lemma EndInserting<V>(t: Table<V>, oldarr: seq<Option<V>>, nold: seq<Node<V>>, done: set<Key>, nasize: nat, nhsize: nat)
    requires t.Inserting(MapOf(oldarr, nold), done, nasize, nhsize)
    requires forall k | k in MapOf(oldarr, nold) :: k in done <==> InArray(k, |oldarr|) || NodeOf(nold, k) >= 0
    ensures t.Contents() == MapOf(oldarr, nold)
    ensures nhsize > |Outside(t.Contents().Keys, nasize)| ==> t.HasRoom()
  {
    var all := MapOf(oldarr, nold);
    forall k | k in all ensures k in done {
      MapAt(oldarr, nold, k);
    }
    hide MapOf, Sound, Used, Outside;
    PartAll(all, done);
    assert done == all.Keys;
  }

  lemma NotThere<V>(arr: seq<Option<V>>, nodes: seq<Node<V>>, key: Key)
    requires !InArray(key, |arr|) && NotLive(nodes, key)
    ensures key !in MapOf(arr, nodes)
  {
    MapAt(arr, nodes, key);
  }

  lemma SoundParts<V>(hash: Hash, arr: seq<Option<V>>, nodes: seq<Node<V>>, rank: seq<real>, lsize: nat)
    requires Sound(hash, arr, nodes, rank, lsize)
    ensures |arr| <= MAXASIZE && |rank| == |nodes| && Keyed(nodes, rank) && Apart(arr, nodes) && NoNaN(nodes)
  {
  }

  lemma IntKeysInRange(keys: set<Key>)
    ensures forall i | i in IntKeys(keys) :: 1 <= i <= MAXASIZE
  {
  }

  lemma OutsideWithout(keys: set<Key>, ek: Key, n: nat)
    requires ek !in keys
    ensures |Outside(keys + {ek}, n)| == |Outside(keys, n)| + if InArray(ek, n) then 0 else 1
  {
    if InArray(ek, n) {
      assert Outside(keys + {ek}, n) == Outside(keys, n);
    } else {
      assert Outside(keys + {ek}, n) == Outside(keys, n) + {ek};
    }
  }

  lemma NoBits()
    ensures Pow2(0) == 1
  {
  }

  lemma HalfPower(e: nat)
    ensures e > 0 ==> Pow2(e) / 2 == Pow2(e - 1)
    ensures e == 0 ==> Pow2(e) == 1
  {
  }

  lemma SliceBits(size: nat, e: nat)
    requires InSlice(size, e)
    ensures e <= MAXBITS <==> size <= MAXASIZE
    ensures Pow2(e) / 2 < size <= Pow2(e)
  {
    MaxSize();
    HalfPower(e);
    hide Pow2;
    if e <= MAXBITS {
      PowMonotone(e, MAXBITS);
    } else {
      PowMonotone(MAXBITS, e - 1);
    }
  }

  /** An array part extended by empty slots. */
  ghost predicate Grown<V>(s: seq<Option<V>>, t: seq<Option<V>>) {
    |s| <= |t| && t[..|s|] == s && forall i | |s| <= i < |t| :: t[i].None?
  }

  lemma HashSize<V>(hash: Hash, arr: seq<Option<V>>, nodes: seq<Node<V>>, rank: seq<real>, lsize: nat)
    requires Sound(hash, arr, nodes, rank, lsize)
    ensures |nodes| > 0
  {
  }

  lemma OwnersLive<V>(hash: Hash, arr: seq<Option<V>>, nodes: seq<Node<V>>, rank: seq<real>, lsize: nat, mp: nat, n: nat)
    requires Sound(hash, arr, nodes, rank, lsize) && mp < |nodes| && nodes[mp].val.Some?
    requires n < |nodes| && nodes[n].key.Free?
    ensures nodes[mp].key.Live? && n != mp && |rank| == |nodes| && Chained(hash, nodes, rank)
  {
    ValueIsLive(nodes, rank, mp, n);
  }

  lemma PlaceAdded<V>(t: Table<V>, s: seq<Node<V>>, mp: nat, key: Key)
    requires t.Valid() && KeyAdded(s, t.nodes, key, mp) && !InArray(key, |t.arr|)
    ensures t.Placed(NodeSlot(mp), key, t.arr, s)
    ensures t.NoRehash(NodeSlot(mp), key, t.arr, s, t.dummy)
  {
    SameMapOf(t.arr, s, t.nodes);
  }

  lemma OnlyIntsInArray(k: Key, n: nat)
    requires k != At(ArrayIndex(k)) && n <= MAXASIZE
    ensures !InArray(k, n)
  {
  }

  lemma IndexInArray(k: Key, n: nat)
    requires n <= MAXASIZE
    ensures InArray(k, n) <==> 0 < ArrayIndex(k) <= n
    ensures InArray(k, n) ==> k.n.i == ArrayIndex(k)
  {
  }

  lemma FoundValue<V>(t: Table<V>, r: Place, k: Key)
    requires t.Valid()
    requires if r == NilObject then !InArray(k, |t.arr|) && NotLive(t.nodes, k) else t.IsPlaceOf(r, k)
    ensures t.Found(r, k)
  {
    MapAt(t.arr, t.nodes, k);
    if r.NodeSlot? {
      NodeIs(t.nodes, t.rank, r.i);
    }
  }

  lemma NeverNaN<V>(t: Table<V>, p: Place, k: Key)
    requires t.Valid() && t.IsPlaceOf(p, k)
    ensures !NaNKey(k)
  {
  }

  lemma WrittenArray<V>(hash: Hash, arr: seq<Option<V>>, nodes: seq<Node<V>>, rank: seq<real>, lsize: nat, i: nat, v: Option<V>)
    requires Sound(hash, arr, nodes, rank, lsize) && i < |arr|
    ensures Sound(hash, arr[i := v], nodes, rank, lsize)
    ensures MapOf(arr[i := v], nodes) == Assign(MapOf(arr, nodes), At(i + 1), v)
  {
    WriteArrayMap(arr, nodes, i, v);
  }

  lemma WrittenNode<V>(hash: Hash, arr: seq<Option<V>>, nodes: seq<Node<V>>, rank: seq<real>, lsize: nat, i: nat, v: Option<V>)
    requires Sound(hash, arr, nodes, rank, lsize) && i < |nodes| && nodes[i].key.Live?
    ensures var t := SetValue(nodes, i, v);
            && Sound(hash, arr, t, rank, lsize) && |t| == |nodes| && Used(t) == Used(nodes)
            && MapOf(arr, t) == Assign(MapOf(arr, nodes), nodes[i].key.k, v)
            && t[i].key == nodes[i].key && (Dummy(nodes) <==> Dummy(t))
            && forall from :: UsedFrom(nodes, from) ==> UsedFrom(t, from)
  {
    hide Linked, Homed, Keyed, MapOf, Assign, Used;
    SoundParts(hash, arr, nodes, rank, lsize);
    SetValueChained(hash, nodes, rank, i, v);
    WriteNodeMap(arr, nodes, rank, i, v);
    SameUsed(nodes, SetValue(nodes, i, v));
  }

  lemma SameUsed<V>(s: seq<Node<V>>, t: seq<Node<V>>)
    requires |s| == |t| && forall i | 0 <= i < |s| :: s[i].key.Free? == t[i].key.Free?
    ensures Used(s) == Used(t)
  {
  }

  lemma HomeLeads<V>(hash: Hash, nodes: seq<Node<V>>, mp: nat)
    requires Homed(hash, nodes) && mp < |nodes| && !nodes[mp].key.Free?
    ensures OnChain(nodes, MainPosition(hash, nodes[mp].key.k, |nodes|), mp)
  {
  }

  lemma ChainOn<V>(nodes: seq<Node<V>>, rank: seq<real>, p: nat, mp: nat)
    requires Linked(nodes, rank) && p < |nodes| && mp < |nodes| && p != mp && OnChain(nodes, p, mp)
    ensures 0 <= nodes[p].next < |nodes| && OnChain(nodes, nodes[p].next, mp) && rank[p] < rank[nodes[p].next]
  {
    ChainStep(nodes, p, mp);
    LeadsOn(nodes, nodes[p].next, mp);
  }

  lemma ChainsFrom<V>(hash: Hash, nodes: seq<Node<V>>, rank: seq<real>, k: Key)
    requires Chained(hash, nodes, rank) && |nodes| > 0
    ensures forall j | 0 <= j < |nodes| && nodes[j].key == Live(k) :: OnChain(nodes, MainPosition(hash, k, |nodes|), j)
  {
  }

  lemma ChainGoesOn<V>(nodes: seq<Node<V>>, n: nat, k: Key)
    requires n < |nodes| && nodes[n].key != Live(k)
    requires forall j | 0 <= j < |nodes| && nodes[j].key == Live(k) :: OnChain(nodes, n, j)
    ensures forall j | 0 <= j < |nodes| && nodes[j].key == Live(k) :: OnChain(nodes, nodes[n].next, j)
    ensures nodes[n].next == -1 ==> NotLive(nodes, k)
  {
    forall j | 0 <= j < |nodes| && nodes[j].key == Live(k) ensures OnChain(nodes, nodes[n].next, j) && nodes[n].next != -1 {
      ChainStep(nodes, n, j);
      LeadsOn(nodes, nodes[n].next, j);
    }
  }

  lemma LeadsOn<V>(nodes: seq<Node<V>>, i: int, j: nat)
    requires OnChain(nodes, i, j)
    ensures i != -1
  {
    var c: nat :| Reach(nodes, i, j, c);
    if i == -1 {
      ReachFromNull(nodes, j, c);
    }
  }

  ghost function Above(rank: seq<real>, n: nat): set<int>
    requires n < |rank|
  {
    set j | 0 <= j < |rank| && rank[j] > rank[n]
  }

  lemma RanksAbove(rank: seq<real>, n: nat, m: nat)
    requires n < |rank| && m < |rank| && rank[n] < rank[m]
    ensures Above(rank, m) < Above(rank, n)
  {
    assert Above(rank, m) <= Above(rank, n);
    assert m in Above(rank, n) && m !in Above(rank, m);
  }
}
