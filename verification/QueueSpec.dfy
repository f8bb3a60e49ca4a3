/**
The queue of src/kernel/queues.c as a sequence of keyed items: where an insertion goes, and what the search
operations take.  `Queues` (Queues.dfy) refines it with linked nodes.
*/
module QueueSpec {
  import opened Options

  // A key is a 32-bit word that the comparison routines read as unsigned or as signed.
  type Key = k: int | 0 <= k < 0x1_0000_0000

  datatype Item<+T> = Item(key: Key, data: T)

  // A queue's comparison routine: none, _comp_ascend_uint or _comp_ascend_int.
  datatype Order = Unordered | AscendingUint | AscendingInt

  function Rank(order: Order, k: Key): int {
    if order == AscendingInt && k >= 0x8000_0000 then k - 0x1_0000_0000 else k
  }

  // compare(a, b) <= 0
  predicate AtMost(order: Order, a: Key, b: Key) { Rank(order, a) <= Rank(order, b) }

  ghost predicate Sorted<T>(order: Order, s: seq<Item<T>>) {
    forall i, j :: 0 <= i < j < |s| ==> AtMost(order, s[i].key, s[j].key)
  }

  // Items the insertion loop passes over.
  function Passed<T>(order: Order, s: seq<Item<T>>, key: Key): (p: nat)
    ensures p <= |s|
    ensures forall i :: 0 <= i < p ==> AtMost(order, s[i].key, key)
    ensures p < |s| ==> !AtMost(order, s[p].key, key)
  {
    if s == [] || !AtMost(order, s[0].key, key) then 0 else 1 + Passed(order, s[1..], key)
  }

  lemma PassedIs<T>(order: Order, s: seq<Item<T>>, key: Key, p: nat)
    requires p <= |s| && (forall i :: 0 <= i < p ==> AtMost(order, s[i].key, key))
    requires p < |s| ==> !AtMost(order, s[p].key, key)
    ensures Passed(order, s, key) == p
  {
    var q := Passed(order, s, key);
    if q < p { assert false; }
    if p < q { assert false; }
  }

  function Insert<T>(order: Order, s: seq<Item<T>>, x: Item<T>): seq<Item<T>> {
    if order == Unordered then s + [x] else
    var p := Passed(order, s, x.key);
    s[..p] + [x] + s[p..]
  }

  function Without<T>(s: seq<T>, i: nat): seq<T>
    requires i < |s|
  {
    s[..i] + s[i + 1..]
  }

  // First position whose item satisfies p.
  function First<T>(s: seq<T>, p: T -> bool): (r: Option<nat>)
    ensures r.Some? ==> r.value < |s| && p(s[r.value]) && forall j :: 0 <= j < r.value ==> !p(s[j])
    ensures r.None? ==> forall j :: 0 <= j < |s| ==> !p(s[j])
  {
    if s == [] then None
    else if p(s[0]) then Some(0)
    else match First(s[1..], p)
      case None => assert forall j :: 0 < j < |s| ==> s[j] == s[1..][j - 1]; None
      case Some(i) => Some(i + 1)
  }

  lemma FirstIs<T>(s: seq<T>, p: T -> bool, i: nat)
    requires i < |s| && p(s[i]) && forall j :: 0 <= j < i ==> !p(s[j])
    ensures First(s, p) == Some(i)
  {
    var r := First(s, p);
    if r.Some? {
      if r.value < i { assert false; }
      if i < r.value { assert false; }
    }
  }

  lemma FirstIsNone<T>(s: seq<T>, p: T -> bool)
    requires forall j :: 0 <= j < |s| ==> !p(s[j])
    ensures First(s, p) == None
  {
  }

  // First position of a key.
  function Position<T>(s: seq<Item<T>>, key: Key): (r: Option<nat>)
    ensures r.Some? ==> r.value < |s| && s[r.value].key == key && forall j :: 0 <= j < r.value ==> s[j].key != key
    ensures r.None? ==> forall j :: 0 <= j < |s| ==> s[j].key != key
  {
    First(s, (item: Item<T>) => item.key == key)
  }

  lemma PositionIs<T>(s: seq<Item<T>>, key: Key, i: nat)
    requires i < |s| && s[i].key == key && forall j :: 0 <= j < i ==> s[j].key != key
    ensures Position(s, key) == Some(i)
  {
    var r := Position(s, key);
    if r.Some? {
      if i < r.value { assert false; }
      if r.value < i { assert false; }
    }
  }

  lemma PositionIsFirst<T>(s: seq<Item<T>>, key: Key, wanted: Item<T> -> bool)
    requires forall x: Item<T> :: wanted(x) <==> x.key == key
    ensures Position(s, key) == First(s, wanted)
  {
    var r := First(s, wanted);
    if r.Some? { PositionIs(s, key, r.value); }
  }

  // ---------------------------------------------------------------- what insertion and removal keep

  lemma InsertKeepsSorted<T>(order: Order, s: seq<Item<T>>, x: Item<T>)
    requires order != Unordered && Sorted(order, s)
    ensures Sorted(order, Insert(order, s, x))
  {
    var p := Passed(order, s, x.key);
    var r := Insert(order, s, x);
    PassedSplits(order, s, x.key);
    forall i, j | 0 <= i < j < |r| ensures AtMost(order, r[i].key, r[j].key) {
      InsertedAt(order, s, x, i);
      InsertedAt(order, s, x, j);
    }
  }

  lemma InsertedAt<T>(order: Order, s: seq<Item<T>>, x: Item<T>, i: nat)
    requires order != Unordered && i <= |s|
    ensures var p := Passed(order, s, x.key);
      && |Insert(order, s, x)| == |s| + 1
      && Insert(order, s, x)[i] == if i < p then s[i] else if i == p then x else s[i - 1]
  {
  }

  lemma InsertAlone<T>(order: Order, none: seq<Item<T>>, x: Item<T>)
    requires none == []
    ensures Insert(order, none, x) == [x]
  {
  }

  // In a sorted queue the items passed over are those whose key is not above the given one.
  lemma PassedSplits<T>(order: Order, s: seq<Item<T>>, key: Key)
    requires Sorted(order, s)
    ensures forall i :: Passed(order, s, key) <= i < |s| ==> !AtMost(order, s[i].key, key)
  {
  }

  lemma WithoutKeepsSorted<T>(order: Order, s: seq<Item<T>>, i: nat)
    requires Sorted(order, s) && i < |s|
    ensures Sorted(order, Without(s, i))
  {
    var r := Without(s, i);
    assert forall j :: 0 <= j < |r| ==> r[j] == if j < i then s[j] else s[j + 1];
  }

  // The items of one key, in queue order.
  function OfKey<T>(s: seq<Item<T>>, key: Key): seq<Item<T>> {
    if s == [] then [] else (if s[0].key == key then [s[0]] else []) + OfKey(s[1..], key)
  }

  lemma {:induction false} OfKeyConcat<T>(s: seq<Item<T>>, t: seq<Item<T>>, key: Key)
    ensures OfKey(s + t, key) == OfKey(s, key) + OfKey(t, key)
  {
    if s == [] {
      assert s + t == t;
    } else {
      OfKeyConcat(s[1..], t, key);
      assert (s + t)[0] == s[0] && (s + t)[1..] == s[1..] + t;
    }
  }

  lemma {:induction false} OfKeyNone<T>(s: seq<Item<T>>, key: Key)
    requires forall i :: 0 <= i < |s| ==> s[i].key != key
    ensures OfKey(s, key) == []
  {
    if s != [] { OfKeyNone(s[1..], key); }
  }

  // Insertion is stable: a new item goes behind all earlier items of its key and leaves other keys alone.
  lemma InsertIsStable<T>(order: Order, s: seq<Item<T>>, x: Item<T>, key: Key)
    requires order == Unordered || Sorted(order, s)
    ensures OfKey(Insert(order, s, x), key) == OfKey(s, key) + if key == x.key then [x] else []
  {
    var p := if order == Unordered then |s| else Passed(order, s, x.key);
    assert Insert(order, s, x) == s[..p] + ([x] + s[p..]);
    OfKeySplit(s, p, x, key);
    if key == x.key && order != Unordered {
      PassedAllOfKey(order, s, key);
    }
  }

  lemma OfKeySplit<T>(s: seq<Item<T>>, p: nat, x: Item<T>, key: Key)
    requires p <= |s|
    ensures OfKey(s[..p] + ([x] + s[p..]), key) ==
      OfKey(s[..p], key) + (if x.key == key then [x] else []) + OfKey(s[p..], key)
    ensures OfKey(s, key) == OfKey(s[..p], key) + OfKey(s[p..], key)
  {
    OfKeyConcat(s[..p], [x] + s[p..], key);
    OfKeyConcat([x], s[p..], key);
    assert s == s[..p] + s[p..];
    OfKeyConcat(s[..p], s[p..], key);
  }

  lemma PassedAllOfKey<T>(order: Order, s: seq<Item<T>>, key: Key)
    requires Sorted(order, s)
    ensures OfKey(s[Passed(order, s, key)..], key) == []
  {
    var p := Passed(order, s, key);
    forall i | 0 <= i < |s[p..]| ensures s[p..][i].key != key {
      assert !AtMost(order, s[p].key, key) && AtMost(order, s[p].key, s[p + i].key);
    }
    OfKeyNone(s[p..], key);
  }

  lemma InsertIsPermutation<T>(order: Order, s: seq<Item<T>>, x: Item<T>)
    ensures multiset(Insert(order, s, x)) == multiset(s) + multiset{x}
  {
    var p := if order == Unordered then |s| else Passed(order, s, x.key);
    assert s == s[..p] + s[p..];
  }

  lemma WithoutIsPermutation<T>(s: seq<T>, i: nat)
    requires i < |s|
    ensures multiset(s) == multiset(Without(s, i)) + multiset{s[i]}
  {
    assert s == s[..i] + [s[i]] + s[i + 1..];
  }

  // Being sorted and stable leaves no choice: insertion is the only function that keeps both.
  lemma {:induction false} SortedStableIsUnique<T>(order: Order, s: seq<Item<T>>, t: seq<Item<T>>)
    requires order != Unordered && Sorted(order, s) && Sorted(order, t)
    requires forall key: Key :: OfKey(s, key) == OfKey(t, key)
    ensures s == t
  {
    assert t != [] ==> OfKey(t, t[0].key) != [] && OfKey(s, t[0].key) == OfKey(t, t[0].key);
    assert s != [] ==> OfKey(s, s[0].key) != [] && OfKey(s, s[0].key) == OfKey(t, s[0].key);
    if s != [] {
      FirstKeyIsLeast(order, s, t);
      FirstKeyIsLeast(order, t, s);
      assert s[0].key == t[0].key;
      assert OfKey(s, s[0].key)[0] == s[0] && OfKey(t, s[0].key)[0] == t[0];
      forall key: Key ensures OfKey(s[1..], key) == OfKey(t[1..], key) {
        DropFirst(s, key);
        DropFirst(t, key);
      }
      SortedStableIsUnique(order, s[1..], t[1..]);
    }
  }

  lemma DropFirst<T>(s: seq<Item<T>>, key: Key)
    requires s != []
    ensures OfKey(s[1..], key) == OfKey(s, key)[if s[0].key == key then 1 else 0..]
  {
  }

  lemma FirstKeyIsLeast<T>(order: Order, s: seq<Item<T>>, t: seq<Item<T>>)
    requires Sorted(order, t) && s != [] && t != [] && OfKey(s, s[0].key) == OfKey(t, s[0].key)
    ensures AtMost(order, t[0].key, s[0].key)
  {
    if forall i :: 0 <= i < |t| ==> t[i].key != s[0].key { OfKeyNone(t, s[0].key); }
    assert OfKey(s, s[0].key) != [];
    var i :| 0 <= i < |t| && t[i].key == s[0].key;
  }
}
