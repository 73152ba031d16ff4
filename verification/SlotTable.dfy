/** Fixed tables of keyed slots, searched from the front: what the source uses in place of maps. */
module SlotTable {
  import opened Wrappers

  datatype Slot<K, V> = Slot(key: K, value: V)

  type Table<K, V> = seq<Option<Slot<K, V>>>

  /** No key has two slots. */
  ghost predicate Distinct<K, V>(t: Table<K, V>) {
    forall i, j :: 0 <= i < j < |t| && t[i].Some? && t[j].Some? ==> t[i].value.key != t[j].value.key
  }

  predicate Holds<K(==), V>(slot: Option<Slot<K, V>>, key: K) {
    slot.Some? && slot.value.key == key
  }

  /** The first slot that belongs to the key. */
  function Holder<K(==), V>(t: Table<K, V>, key: K): (r: Option<nat>)
    ensures r.Some? ==> r.value < |t| && Holds(t[r.value], key)
                        && forall j :: 0 <= j < r.value ==> !Holds(t[j], key)
    ensures r.None? ==> forall j :: 0 <= j < |t| ==> !Holds(t[j], key)
  {
    if t == [] then None
    else match Holder(t[..|t| - 1], key)
      case Some(i) => Some(i)
      case None => if Holds(t[|t| - 1], key) then Some(|t| - 1) else None
  }

  /** The first slot nobody has taken. */
  function FirstEmpty<S>(t: seq<Option<S>>): (r: Option<nat>)
    ensures r.Some? ==> r.value < |t| && t[r.value].None? && forall j :: 0 <= j < r.value ==> t[j].Some?
    ensures r.None? ==> forall j :: 0 <= j < |t| ==> t[j].Some?
  {
    if t == [] then None
    else match FirstEmpty(t[..|t| - 1])
      case Some(i) => Some(i)
      case None => if t[|t| - 1].None? then Some(|t| - 1) else None
  }

  /** Where a write for the key goes: its own slot, else the first empty one. */
  function PlaceFor<K(==), V>(t: Table<K, V>, key: K): Option<nat> {
    if Holder(t, key).Some? then Holder(t, key) else FirstEmpty(t)
  }

  function Put<K(==), V>(t: Table<K, V>, key: K, value: V): Result<Table<K, V>> {
    match PlaceFor(t, key)
    case Some(i) => Ok(t[i := Some(Slot(key, value))])
    case None => Err(Overflow)
  }

  /** The table as a map. */
  function View<K(==), V>(t: Table<K, V>): map<K, V> {
    if t == [] then map[]
    else
      var rest, last := View(t[..|t| - 1]), t[|t| - 1];
      if last.None? then rest else rest[last.value.key := last.value.value]
  }

  lemma {:induction false} ViewLookup<K, V>(t: Table<K, V>, key: K)
    requires Distinct(t)
    ensures key in View(t) <==> Holder(t, key).Some?
    ensures key in View(t) ==> View(t)[key] == t[Holder(t, key).value].value.value
  {
    if t != [] {
      var init := t[..|t| - 1];
      ViewLookup(init, key);
      if Holder(init, key).Some? { assert init[Holder(init, key).value] == t[Holder(init, key).value]; }
    }
  }

  lemma HolderIs<K, V>(t: Table<K, V>, key: K, i: nat)
    requires Distinct(t) && i < |t| && Holds(t[i], key)
    ensures Holder(t, key) == Some(i)
  {
    var j := Holder(t, key).value;
    assert j == i;
  }

  /** A table is full exactly when its map has as many nodes as the table has slots. */
  lemma {:induction false} ViewSize<K, V>(t: Table<K, V>)
    requires Distinct(t)
    ensures |View(t)| <= |t|
    ensures |View(t)| == |t| <==> FirstEmpty(t).None?
  {
    if t != [] {
      var init, last := t[..|t| - 1], t[|t| - 1];
      ViewSize(init);
      if last.Some? {
        ViewLookup(init, last.value.key);
      }
    }
  }

  /** Writing a slot updates the map, and fails exactly when the map is full and lacks the key. */
  lemma PutRefinesMap<K, V>(t: Table<K, V>, key: K, value: V)
    requires Distinct(t)
    ensures Put(t, key, value).Ok? <==> key in View(t) || |View(t)| < |t|
    ensures Put(t, key, value).Ok? ==>
              var t' := Put(t, key, value).value;
              |t'| == |t| && Distinct(t') && View(t') == View(t)[key := value]
    ensures Put(t, key, value).Err? ==> Put(t, key, value).error == Overflow
  {
    hide View, Holder, FirstEmpty;
    ViewLookup(t, key);
    ViewSize(t);
    if Put(t, key, value).Ok? {
      var t' := Put(t, key, value).value;
      PutDistinct(t, key, value);
      var m, m' := View(t)[key := value], View(t');
      forall n: K ensures (n in m' <==> n in m) && (n in m' ==> m'[n] == m[n]) {
        PutLookup(t, key, value, n);
      }
      SameMap(m', m);
    }
  }

  lemma SameMap<K, V>(m: map<K, V>, m': map<K, V>)
    requires forall k: K :: (k in m <==> k in m') && (k in m ==> m[k] == m'[k])
    ensures m == m'
  {
    assert m.Keys == m'.Keys;
  }

  lemma PutLookup<K, V>(t: Table<K, V>, key: K, value: V, n: K)
    requires Distinct(t) && Put(t, key, value).Ok?
    ensures var m, m' := View(t)[key := value], View(Put(t, key, value).value);
            (n in m' <==> n in m) && (n in m' ==> m'[n] == m[n])
  {
    hide View;
    PutDistinct(t, key, value);
    ViewLookup(t, n);
    ViewLookup(Put(t, key, value).value, n);
    PutElsewhere(t, key, value, n);
  }

  lemma PutDistinct<K, V>(t: Table<K, V>, key: K, value: V)
    requires Distinct(t) && Put(t, key, value).Ok?
    ensures Distinct(Put(t, key, value).value)
  {
    var i := PlaceFor(t, key).value;
    forall j | 0 <= j < |t| && j != i ensures !Holds(t[j], key) { }
  }

  lemma PutElsewhere<K, V>(t: Table<K, V>, key: K, value: V, n: K)
    requires Distinct(t) && Put(t, key, value).Ok?
    ensures Holder(Put(t, key, value).value, n) == if n == key then PlaceFor(t, key) else Holder(t, n)
  {
    var t' := Put(t, key, value).value;
    PutDistinct(t, key, value);
    if n == key {
      HolderIs(t', n, PlaceFor(t, key).value);
    } else if Holder(t, n).Some? {
      HolderIs(t', n, Holder(t, n).value);
    } else {
      forall j | 0 <= j < |t| ensures !Holds(t'[j], n) { assert !Holds(t[j], n); }
    }
  }

  function Empties<S>(n: nat): (r: seq<Option<S>>)
    ensures |r| == n && forall i :: 0 <= i < n ==> r[i].None?
  {
    if n == 0 then [] else Empties(n - 1) + [None]
  }

  lemma {:induction false} EmptyView<K, V>(n: nat)
    ensures View<K, V>(Empties(n)) == map[]
  {
    if n > 0 {
      EmptyView<K, V>(n - 1);
      assert Empties<Slot<K, V>>(n)[..n - 1] == Empties(n - 1);
    }
  }

  /** `empty` is the first empty slot among the first `index`, if there is one. */
  predicate Passed<K, V>(t: Table<K, V>, index: nat, empty: Option<nat>)
    requires index <= |t|
  {
    match empty
    case Some(e) => e < index && t[e].None? && forall j :: 0 <= j < e ==> t[j].Some?
    case None => forall j :: 0 <= j < index ==> t[j].Some?
  }

  lemma FirstEmptyIs<S>(t: seq<Option<S>>, i: nat)
    requires i < |t| && t[i].None? && forall j :: 0 <= j < i ==> t[j].Some?
    ensures FirstEmpty(t) == Some(i)
  {
  }
}
