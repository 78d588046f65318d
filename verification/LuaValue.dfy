/**
 Values that the binary format carries: as plain contents, and as they lie in a
 live table, with a traversal order and the border that `#t` reports.
 */
module LuaValue {
  import opened Bytes
  import opened Numbers
  import TableSizes

  datatype Key = BoolKey(b: bool) | NumKey(n: Number) | StrKey(s: seq<byte>) | TableKey(id: nat)

  /** `Other` is a function, userdata or thread, which the format cannot carry. */
  datatype Value = Nil | Bool(b: bool) | Num(n: Number) | Str(s: seq<byte>) | Table(m: map<Key, Value>) | Other

  /** A table is its entries in the order of `next`, and the border `#t` finds. */
  datatype LValue =
    | LNil
    | LBool(b: bool)
    | LNum(n: Number)
    | LStr(s: seq<byte>)
    | LTable(entries: seq<(Key, LValue)>, border: nat)
    | LOther

  function At(i: int): Key { NumKey(Int(i)) }

  /** Raw assignment: nil removes the entry. */
  function Put(m: map<Key, Value>, k: Key, v: Value): map<Key, Value> {
    if v.Nil? then m - {k} else m[k := v]
  }

  /** The position of a key among the entries, or -1. */
  function Find(entries: seq<(Key, LValue)>, k: Key): (r: int)
    ensures -1 <= r < |entries|
    ensures r >= 0 ==> entries[r].0 == k
    ensures r < 0 ==> forall i | 0 <= i < |entries| :: entries[i].0 != k
  {
    if entries == [] then -1
    else if entries[|entries| - 1].0 == k then |entries| - 1
    else Find(entries[..|entries| - 1], k)
  }

  predicate Has(entries: seq<(Key, LValue)>, k: Key) { Find(entries, k) >= 0 }

  function Keys(entries: seq<(Key, LValue)>): (ks: seq<Key>)
    ensures |ks| == |entries|
    ensures forall i | 0 <= i < |ks| :: ks[i] == entries[i].0
  {
    seq(|entries|, i requires 0 <= i < |entries| => entries[i].0)
  }

  /** The contents of a value: order and border are forgotten. */
  function Content(v: LValue): Value
    decreases v
  {
    match v
    case LNil => Nil
    case LBool(b) => Bool(b)
    case LNum(n) => Num(n)
    case LStr(s) => Str(s)
    case LOther => Other
    case LTable(entries, _) => Table(ContentMap(v, |entries|))
  }

  function ContentMap(t: LValue, n: nat): map<Key, Value>
    requires t.LTable? && n <= |t.entries|
    decreases t, n
  {
    if n == 0 then map[] else Put(ContentMap(t, n - 1), t.entries[n - 1].0, Content(t.entries[n - 1].1))
  }

  // ---------------------------------------------------------------- the intended domain

  const MAXSTRING: nat := 0x1_0000
  const MAXCOUNT: nat := 0x1_0000_0000
  const MAX_INT: nat := 0x7fff_ffff

  /** How many keys the hash part of a table holds, and how many elements a list that
      grows one by one: as many in its array part, and as many behind. */
  const MAXNODES: nat := TableSizes.MAXASIZE
  const MAXLIST: nat := 2 * TableSizes.MAXASIZE

  predicate PlainKey(k: Key) {
    match k
    case NumKey(n) => ValidNumber(n)
    case StrKey(s) => |s| < MAXSTRING
    case _ => false
  }

  /** `n` is a border: the last of the present keys 1, 2, ... or, with holes, any
      present index whose successor is absent. */
  predicate IsBorder(entries: seq<(Key, LValue)>, n: nat) {
    (n == 0 || Has(entries, At(n))) && !Has(entries, At(n + 1))
  }

  predicate DistinctKeys(entries: seq<(Key, LValue)>) {
    forall i, j | 0 <= i < j < |entries| :: entries[i].0 != entries[j].0
  }

  /** What a value may be: a tree with number and string keys, int64 integers and
      strings whose length fits `TStringLength`; a border is an `int`. */
  predicate Valid(v: LValue) {
    match v
    case LNum(n) => ValidNumber(n)
    case LStr(s) => |s| < MAXSTRING
    case LTable(entries, border) =>
      && |entries| < MAXCOUNT && DistinctKeys(entries) && IsBorder(entries, border) && border <= MAX_INT
      && forall i | 0 <= i < |entries| :: PlainKey(entries[i].0) && !entries[i].1.LNil? && Valid(entries[i].1)
    case _ => true
  }

  predicate Supported(v: LValue) {
    !v.LOther? && (v.LTable? ==> forall i | 0 <= i < |v.entries| :: Supported(v.entries[i].1))
  }

  /** The writer takes a table for an array when its size equals its border. */
  predicate TakenForArray(entries: seq<(Key, LValue)>, border: nat) {
    |entries| != 0 && |entries| == border
  }

  predicate KeysAre1To(entries: seq<(Key, LValue)>, n: nat) {
    forall i | 1 <= i <= n :: Has(entries, At(i))
  }

  /** At every level, a table taken for an array has exactly the keys 1..n. */
  predicate Lossless(v: LValue) {
    v.LTable? ==>
      && (TakenForArray(v.entries, v.border) ==> KeysAre1To(v.entries, v.border))
      && forall i | 0 <= i < |v.entries| :: Lossless(v.entries[i].1)
  }

  /** What the reader can hold: no table that is written in table form, at any level
      that is written, has more keys than a hash part. */
  predicate Loadable(v: LValue)
    decreases v
  {
    v.LTable? ==>
      if TakenForArray(v.entries, v.border) then forall j | 1 <= j <= v.border :: LoadableAt(v, At(j))
      else |v.entries| <= MAXNODES && forall i | 0 <= i < |v.entries| :: Loadable(v.entries[i].1)
  }

  predicate LoadableAt(t: LValue, k: Key)
    requires t.LTable?
    decreases t, 0
  {
    var i := Find(t.entries, k);
    i >= 0 ==> Loadable(t.entries[i].1)
  }

  /** What comes back from a value that was written: an array form keeps positions
      1..n only. */
  function Lossy(v: LValue): Value
    decreases v
  {
    match v
    case LNil => Nil
    case LBool(b) => Bool(b)
    case LNum(n) => Num(n)
    case LStr(s) => Str(s)
    case LOther => Other
    case LTable(entries, border) =>
      if TakenForArray(entries, border) then Table(LossyArray(v, border))
      else Table(LossyMap(v, |entries|))
  }

  /** The value at a key, nil if absent, after writing and reading. */
  function LossyAt(t: LValue, k: Key): Value
    requires t.LTable?
    decreases t, 0
  {
    var i := Find(t.entries, k);
    if i >= 0 then Lossy(t.entries[i].1) else Nil
  }

  function LossyArray(t: LValue, n: nat): map<Key, Value>
    requires t.LTable?
    decreases t, 1, n
  {
    if n == 0 then map[] else Put(LossyArray(t, n - 1), At(n), LossyAt(t, At(n)))
  }

  function LossyMap(t: LValue, n: nat): map<Key, Value>
    requires t.LTable? && n <= |t.entries|
    decreases t, 1, n
  {
    if n == 0 then map[] else Put(LossyMap(t, n - 1), t.entries[n - 1].0, Lossy(t.entries[n - 1].1))
  }
}
