/**
 * Sequence helpers shared by the stores: the id-keyed `filter`, `find` and
 * `indexOf` the stores use on arrays of records, and the `splice` of
 * JavaScript arrays. Every record in the board is addressed by a string id.
 */
module Collections {

  type Id = string

  datatype Option<+T> = None | Some(value: T)

  /** The keys of `s`, in order (`s.map(key)`). */
  function Keys<T>(s: seq<T>, key: T -> Id): (r: seq<Id>)
    ensures |r| == |s|
    ensures forall i :: 0 <= i < |s| ==> r[i] == key(s[i])
  {
    seq(|s|, i requires 0 <= i < |s| => key(s[i]))
  }

  /** No id occurs twice in `ids`. */
  ghost predicate Distinct(ids: seq<Id>) {
    forall id :: multiset(ids)[id] <= 1
  }

  /** No two records of `s` share a key. */
  ghost predicate UniqueKeys<T>(s: seq<T>, key: T -> Id) {
    Distinct(Keys(s, key))
  }

  /** `s.filter(x => key(x) !== id)`. */
  function Without<T>(s: seq<T>, key: T -> Id, id: Id): (r: seq<T>)
    ensures |r| <= |s|
  {
    if s == [] then []
    else if key(s[0]) == id then Without(s[1..], key, id)
    else [s[0]] + Without(s[1..], key, id)
  }

  /** `s.findIndex(x => key(x) === id)`, with None standing for -1. */
  function FirstIndex<T>(s: seq<T>, key: T -> Id, id: Id): (r: Option<nat>)
    ensures r.Some? ==> r.value < |s| && key(s[r.value]) == id
    ensures r.Some? ==> forall j :: 0 <= j < r.value ==> key(s[j]) != id
    ensures r.None? <==> id !in Keys(s, key)
  {
    if s == [] then None
    else if key(s[0]) == id then Some(0)
    else match FirstIndex(s[1..], key, id)
      case None => None
      case Some(k) => Some(k + 1)
  }

  /** `s.find(x => key(x) === id)`: the first record with that key. */
  function Find<T>(s: seq<T>, key: T -> Id, id: Id): (r: Option<T>)
    ensures r.None? <==> id !in Keys(s, key)
    ensures r.Some? ==> key(r.value) == id
    ensures r.Some? ==> FirstIndex(s, key, id).Some? && r.value == s[FirstIndex(s, key, id).value]
  {
    match FirstIndex(s, key, id)
    case None => None
    case Some(k) => Some(s[k])
  }

  /** `ids.indexOf(id)`: the first position of `id`, or -1. */
  function IndexOf(ids: seq<Id>, id: Id): (r: int)
    ensures -1 <= r < |ids|
    ensures r == -1 <==> id !in ids
    ensures r >= 0 ==> ids[r] == id && id !in ids[..r]
  {
    if ids == [] then -1
    else if ids[0] == id then 0
    else
      var k := IndexOf(ids[1..], id);
      assert ids[1..][..k + 1] == ids[1..k + 2];
      if k == -1 then -1 else k + 1
  }

  /**
   * Where `splice(start, …)` starts in an array of length `len`: a negative
   * start counts back from the end (and stops at 0), a start past the end
   * is the end.
   */
  function SpliceStart(len: nat, start: int): (k: nat)
    ensures k <= len
    ensures start >= 0 ==> k == if start <= len then start else len
    ensures start < 0 ==> k == if len + start >= 0 then len + start else 0
  {
    if start < 0 then (if len + start < 0 then 0 else len + start)
    else if start > len then len
    else start
  }

  /** A copy of `s` after `s.splice(start, 0, x)`. */
  function InsertAt<T>(s: seq<T>, start: int, x: T): (r: seq<T>)
    ensures |r| == |s| + 1
    ensures r[SpliceStart(|s|, start)] == x
    ensures forall m :: 0 <= m < SpliceStart(|s|, start) ==> r[m] == s[m]
    ensures forall m :: SpliceStart(|s|, start) < m < |r| ==> r[m] == s[m - 1]
    ensures multiset(r) == multiset(s) + multiset{x}
  {
    var k := SpliceStart(|s|, start);
    assert s == s[..k] + s[k..];
    s[..k] + [x] + s[k..]
  }

  /** A copy of `s` after `s.splice(i, 1)` for an index inside `s`. */
  function RemoveAt<T>(s: seq<T>, i: nat): (r: seq<T>)
    requires i < |s|
    ensures |r| == |s| - 1
    ensures forall m :: 0 <= m < i ==> r[m] == s[m]
    ensures forall m :: i <= m < |r| ==> r[m] == s[m + 1]
    ensures multiset(r) + multiset{s[i]} == multiset(s)
  {
    assert s == s[..i] + [s[i]] + s[i + 1..];
    s[..i] + s[i + 1..]
  }

  lemma KeysAppend<T>(a: seq<T>, b: seq<T>, key: T -> Id)
    ensures Keys(a + b, key) == Keys(a, key) + Keys(b, key)
  {
  }

  lemma KeysCons<T>(x: T, s: seq<T>, key: T -> Id)
    ensures Keys([x] + s, key) == [key(x)] + Keys(s, key)
  {
    KeysAppend([x], s, key);
    assert Keys([x], key) == [key(x)];
  }

  /** An id found at two positions is counted at least twice. */
  lemma RepeatedCount(ids: seq<Id>, i: nat, j: nat)
    requires i < j < |ids| && ids[i] == ids[j]
    ensures multiset(ids)[ids[i]] >= 2
  {
    assert ids == ids[..i] + [ids[i]] + ids[i + 1..j] + [ids[j]] + ids[j + 1..];
  }

  /** Two records of a uniquely keyed sequence with the same key are the same position. */
  lemma {:induction false} UniqueKeysAt<T>(s: seq<T>, key: T -> Id, i: nat, j: nat)
    requires UniqueKeys(s, key)
    requires i < |s| && j < |s| && key(s[i]) == key(s[j])
    ensures i == j
    decreases if i <= j then 0 else 1
  {
    if i < j {
      RepeatedCount(Keys(s, key), i, j);
    } else if j < i {
      UniqueKeysAt(s, key, j, i);
    }
  }

  /** Filtering drops every record with key `id` and keeps every other record as often as it occurs. */
  lemma {:induction false} WithoutCounts<T>(s: seq<T>, key: T -> Id, id: Id)
    ensures forall x :: multiset(Without(s, key, id))[x] == if key(x) == id then 0 else multiset(s)[x]
  {
    if s != [] {
      WithoutCounts(s[1..], key, id);
      assert s == [s[0]] + s[1..];
    }
  }

  /** Filtering works piecewise, so the records kept stay in their order. */
  lemma {:induction false} WithoutAppend<T>(a: seq<T>, b: seq<T>, key: T -> Id, id: Id)
    ensures Without(a + b, key, id) == Without(a, key, id) + Without(b, key, id)
  {
    if a == [] {
      assert a + b == b;
    } else {
      assert (a + b)[0] == a[0] && (a + b)[1..] == a[1..] + b;
      WithoutAppend(a[1..], b, key, id);
      if key(a[0]) != id {
        calc {
          Without(a + b, key, id);
          [a[0]] + Without(a[1..] + b, key, id);
          [a[0]] + (Without(a[1..], key, id) + Without(b, key, id));
          ([a[0]] + Without(a[1..], key, id)) + Without(b, key, id);
        }
      }
    }
  }

  /** Filtering keeps only part of the keys: the key multiset can only shrink. */
  lemma {:induction false} WithoutKeysSub<T>(s: seq<T>, key: T -> Id, id: Id)
    ensures multiset(Keys(Without(s, key, id), key)) <= multiset(Keys(s, key))
    ensures multiset(Keys(Without(s, key, id), key))[id] == 0
  {
    if s != [] {
      WithoutKeysSub(s[1..], key, id);
      assert s == [s[0]] + s[1..];
      KeysCons(s[0], s[1..], key);
      if key(s[0]) != id {
        KeysCons(s[0], Without(s[1..], key, id), key);
      }
    }
  }

  /** One step of the filter, on a sequence split into its head and tail. */
  lemma WithoutCons<T>(s: seq<T>, key: T -> Id, id: Id)
    requires s != []
    ensures Without(s, key, id) == if key(s[0]) == id then Without(s[1..], key, id) else [s[0]] + Without(s[1..], key, id)
  {
  }

  /** One step of the search, with the head's key and the multiset split off. */
  lemma FindCons<T>(s: seq<T>, key: T -> Id, id: Id)
    requires s != []
    ensures Keys(s, key) == [key(s[0])] + Keys(s[1..], key)
    ensures Find(s, key, id) == if key(s[0]) == id then Some(s[0]) else Find(s[1..], key, id)
    ensures multiset(s) == multiset{s[0]} + multiset(s[1..])
  {
    assert s == [s[0]] + s[1..];
    KeysCons(s[0], s[1..], key);
  }

  /**
   * Removing the only record with key `id` takes exactly that record (the
   * first found) out.
   */
  lemma {:induction false} WithoutSingle<T>(s: seq<T>, key: T -> Id, id: Id)
    requires multiset(Keys(s, key))[id] == 1
    ensures Find(s, key, id).Some?
    ensures multiset(Without(s, key, id)) + multiset{Find(s, key, id).value} == multiset(s)
    decreases |s|, 1
  {
    var t := s[1..];
    assert multiset(s) == multiset{s[0]} + multiset(t) by {
      assert s == [s[0]] + t;
    }
    if key(s[0]) == id {
      assert Without(s, key, id) == t && Find(s, key, id) == Some(s[0]) by {
        WithoutCons(s, key, id);
        FindCons(s, key, id);
        assert multiset(Keys(t, key))[id] == 0;
        WithoutNone(t, key, id);
      }
    } else {
      WithoutSingleTail(s, key, id);
    }
  }

  /** The step of WithoutSingle past a head with another key. */
  lemma {:induction false} WithoutSingleTail<T>(s: seq<T>, key: T -> Id, id: Id)
    requires s != [] && key(s[0]) != id
    requires multiset(Keys(s, key))[id] == 1
    requires multiset(s) == multiset{s[0]} + multiset(s[1..])
    ensures Find(s, key, id).Some?
    ensures multiset(Without(s, key, id)) + multiset{Find(s, key, id).value} == multiset(s)
    decreases |s|, 0
  {
    var t := s[1..];
    assert Without(s, key, id) == [s[0]] + Without(t, key, id) && Find(s, key, id) == Find(t, key, id)
      && multiset(Keys(t, key))[id] == 1 by {
      WithoutCons(s, key, id);
      FindCons(s, key, id);
    }
    WithoutSingle(t, key, id);
  }

  /** ... and exactly one copy of `id` out of the keys. */
  lemma {:induction false} WithoutSingleKeys<T>(s: seq<T>, key: T -> Id, id: Id)
    requires multiset(Keys(s, key))[id] == 1
    ensures multiset(Keys(Without(s, key, id), key)) + multiset{id} == multiset(Keys(s, key))
    decreases |s|, 1
  {
    var t := s[1..];
    assert multiset(Keys(s, key)) == multiset{key(s[0])} + multiset(Keys(t, key)) by {
      KeysCons(s[0], t, key);
      assert s == [s[0]] + t;
    }
    if key(s[0]) == id {
      assert Without(s, key, id) == t by {
        WithoutCons(s, key, id);
        assert multiset(Keys(t, key))[id] == 0;
        WithoutNone(t, key, id);
      }
    } else {
      WithoutSingleKeysTail(s, key, id);
    }
  }

  /** The step of WithoutSingleKeys past a head with another key. */
  lemma {:induction false} WithoutSingleKeysTail<T>(s: seq<T>, key: T -> Id, id: Id)
    requires s != [] && key(s[0]) != id
    requires multiset(Keys(s, key)) == multiset{key(s[0])} + multiset(Keys(s[1..], key))
    requires multiset(Keys(s[1..], key))[id] == 1
    ensures multiset(Keys(Without(s, key, id), key)) + multiset{id} == multiset(Keys(s, key))
    decreases |s|, 0
  {
    var t := s[1..];
    var w := Without(t, key, id);
    assert Without(s, key, id) == [s[0]] + w by {
      WithoutCons(s, key, id);
    }
    assert multiset(Keys([s[0]] + w, key)) == multiset{key(s[0])} + multiset(Keys(w, key)) by {
      KeysCons(s[0], w, key);
    }
    WithoutSingleKeys(t, key, id);
  }

  /**
   * With `id` held by the record at `i` only, filtering it out is the
   * removal at `i`: the other records keep their order.
   */
  lemma {:induction false} WithoutAt<T>(s: seq<T>, key: T -> Id, i: nat)
    requires i < |s|
    requires forall j :: 0 <= j < |s| && j != i ==> key(s[j]) != key(s[i])
    ensures Without(s, key, key(s[i])) == RemoveAt(s, i)
  {
    var id := key(s[i]);
    if i == 0 {
      WithoutDropsHead(s, key, id);
      assert RemoveAt(s, 0) == s[1..];
    } else {
      var t := s[1..];
      assert key(s[0]) != id;
      assert Without(s, key, id) == [s[0]] + Without(t, key, id) by {
        WithoutCons(s, key, id);
      }
      assert Without(t, key, id) == RemoveAt(t, i - 1) by {
        assert t[i - 1] == s[i];
        forall j | 0 <= j < |t| && j != i - 1 ensures key(t[j]) != id {
          assert t[j] == s[j + 1];
        }
        WithoutAt(t, key, i - 1);
      }
      assert RemoveAt(s, i) == [s[0]] + RemoveAt(t, i - 1) by {
        assert s[..i] == [s[0]] + t[..i - 1];
        assert s[i + 1..] == t[i..];
      }
    }
  }

  /** Filtering out the head's key, when only the head has it, leaves the tail. */
  lemma WithoutDropsHead<T>(s: seq<T>, key: T -> Id, id: Id)
    requires s != [] && key(s[0]) == id
    requires forall j :: 0 < j < |s| ==> key(s[j]) != id
    ensures Without(s, key, id) == s[1..]
  {
    assert id !in Keys(s[1..], key);
    WithoutNone(s[1..], key, id);
  }

  /** A filter that matches nothing keeps everything. */
  lemma {:induction false} WithoutNone<T>(s: seq<T>, key: T -> Id, id: Id)
    requires id !in Keys(s, key)
    ensures Without(s, key, id) == s
  {
    if s != [] {
      FindCons(s, key, id);
      WithoutNone(s[1..], key, id);
    }
  }

  /** Removing position `i` takes exactly one copy of its key out of the keys. */
  lemma KeysRemoveAt<T>(s: seq<T>, key: T -> Id, i: nat)
    requires i < |s|
    ensures multiset(Keys(RemoveAt(s, i), key)) + multiset{key(s[i])} == multiset(Keys(s, key))
  {
    KeysAppend(s[..i], s[i + 1..], key);
    KeysAppend(s[..i], [s[i]] + s[i + 1..], key);
    KeysCons(s[i], s[i + 1..], key);
    assert s == s[..i] + ([s[i]] + s[i + 1..]);
  }

  /** A part of a sequence without repeats has no repeats. */
  lemma DistinctSub(a: seq<Id>, b: seq<Id>)
    requires Distinct(b) && multiset(a) <= multiset(b)
    ensures Distinct(a)
  {
    forall id ensures multiset(a)[id] <= 1 {
      assert multiset(a)[id] <= multiset(b)[id];
    }
  }

  /** Adding one id that was not there keeps a sequence without repeats. */
  lemma DistinctAdd(a: seq<Id>, b: seq<Id>, id: Id)
    requires Distinct(b) && id !in b && multiset(a) == multiset(b) + multiset{id}
    ensures Distinct(a)
  {
    forall x ensures multiset(a)[x] <= 1 {
      assert multiset(b)[id] == 0;
    }
  }

  /** Cancelling a common part on both sides of a multiset equation. */
  lemma MultisetCancel<T>(a: multiset<T>, b: multiset<T>, x: multiset<T>, y: multiset<T>)
    requires a + x == b + (x + y)
    ensures a == b + y
  {
    forall e ensures a[e] == (b + y)[e] {
      assert (a + x)[e] == (b + (x + y))[e];
    }
  }

  lemma MultisetShrink<T>(a: multiset<T>, b: multiset<T>, x: multiset<T>, y: multiset<T>)
    requires a + x == b + y && y <= x
    ensures a <= b
  {
    forall e ensures a[e] <= b[e] {
      assert (a + x)[e] == (b + y)[e];
    }
  }

  lemma MultisetCancelBoth<T>(a: multiset<T>, b: multiset<T>, x: multiset<T>)
    requires a + x == b + x
    ensures a == b
  {
    forall e ensures a[e] == b[e] {
      assert (a + x)[e] == (b + x)[e];
    }
  }

  /** With `key(s[i])` held by `s[i]` alone, `find` returns `s[i]`. */
  lemma FindAt<T>(s: seq<T>, key: T -> Id, i: nat)
    requires i < |s|
    requires forall k :: 0 <= k < |s| && k != i ==> key(s[k]) != key(s[i])
    ensures Find(s, key, key(s[i])) == Some(s[i])
  {
  }

  /** Splicing `x` in adds exactly one copy of its key to the keys. */
  lemma KeysInsertAt<T>(s: seq<T>, start: int, x: T, key: T -> Id)
    ensures Keys(InsertAt(s, start, x), key) == InsertAt(Keys(s, key), start, key(x))
    ensures multiset(Keys(InsertAt(s, start, x), key)) == multiset(Keys(s, key)) + multiset{key(x)}
  {
    var r, ks := InsertAt(s, start, x), Keys(s, key);
    var k := SpliceStart(|s|, start);
    assert Keys(r, key) == InsertAt(ks, start, key(x)) by {
      forall m | 0 <= m < |r| ensures Keys(r, key)[m] == InsertAt(ks, start, key(x))[m] {
        if m < k {
        } else if m == k {
        } else {
        }
      }
    }
  }

  /** Inserting at or past the end appends. */
  lemma InsertAtEnd<T>(s: seq<T>, start: int, x: T)
    requires start >= |s|
    ensures InsertAt(s, start, x) == s + [x]
  {
    assert SpliceStart(|s|, start) == |s|;
  }

  /** Inserting at `k` shifts the element that was at `k` one place down. */
  lemma InsertShifts<T>(s: seq<T>, k: nat, x: T)
    requires k < |s|
    ensures var r := InsertAt(s, k, x); r[k] == x && k + 1 < |r| && r[k + 1] == s[k]
  {
    assert SpliceStart(|s|, k) == k;
  }

  /**
   * Moving the element at `j` to index `k` shifts the element that was at
   * `k` one place up when `j < k` and one place down when `k < j`.
   */
  lemma MoveShifts<T>(s: seq<T>, j: nat, k: nat)
    requires j < |s| && k < |s| && j != k
    ensures var r := InsertAt(RemoveAt(s, j), k, s[j]);
      var shifted := if j < k then k - 1 else k + 1;
      k < |r| && r[k] == s[j] && shifted < |r| && r[shifted] == s[k]
  {
    var rest := RemoveAt(s, j);
    assert SpliceStart(|rest|, k) == k;
    if j < k {
      assert rest[k - 1] == s[k];
    } else {
      assert rest[k] == s[k];
    }
  }

  /** Splicing a removed element back where it was restores the sequence. */
  lemma InsertRemoveAt<T>(s: seq<T>, i: nat)
    requires i < |s|
    ensures InsertAt(RemoveAt(s, i), i, s[i]) == s
  {
    var t := RemoveAt(s, i);
    assert t[..i] == s[..i] && t[i..] == s[i + 1..];
  }

  /** Sequences with the same keys are searched alike. */
  lemma {:induction false} FirstIndexSameKeys<T>(s: seq<T>, t: seq<T>, key: T -> Id, id: Id)
    requires Keys(s, key) == Keys(t, key)
    ensures FirstIndex(s, key, id) == FirstIndex(t, key, id)
  {
    if s != [] {
      assert key(s[0]) == Keys(s, key)[0] == Keys(t, key)[0] == key(t[0]);
      assert Keys(s[1..], key) == Keys(s, key)[1..];
      assert Keys(t[1..], key) == Keys(t, key)[1..];
      FirstIndexSameKeys(s[1..], t[1..], key, id);
    }
  }

  /** An id found in `a` is found at the same place in `a + b`. */
  lemma {:induction false} FirstIndexAppend<T>(a: seq<T>, b: seq<T>, key: T -> Id, id: Id)
    requires FirstIndex(a, key, id).Some?
    ensures FirstIndex(a + b, key, id) == FirstIndex(a, key, id)
  {
    assert (a + b)[0] == a[0];
    if key(a[0]) != id {
      assert (a + b)[1..] == a[1..] + b;
      FirstIndexAppend(a[1..], b, key, id);
    }
  }

  /** Filtering out one id does not change what `find` returns for another. */
  lemma {:induction false} FindWithout<T>(s: seq<T>, key: T -> Id, id: Id, other: Id)
    requires other != id
    ensures Find(Without(s, key, id), key, other) == Find(s, key, other)
  {
    if s != [] {
      WithoutCons(s, key, id);
      FindCons(s, key, other);
      FindWithout(s[1..], key, id, other);
      if key(s[0]) != id {
        FindCons([s[0]] + Without(s[1..], key, id), key, other);
        assert ([s[0]] + Without(s[1..], key, id))[1..] == Without(s[1..], key, id);
      }
    }
  }
}
