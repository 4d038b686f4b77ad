/**
 * The `reduce` both source files use to bucket tickets: for each element in
 * turn, compute its key, create the key's list on first use and push the
 * element onto it. The JavaScript object that collects the lists is modelled
 * as its insertion-ordered key list plus a map from key to list.
 */
module Grouping {
  import opened Tickets
  import opened StableSort

  /** The elements of `s` whose key is `k`, in their order in `s`. */
  function Members<T>(s: seq<T>, key: T -> string, k: string): (r: seq<T>)
    ensures |r| <= |s|
  {
    if s == [] then []
    else Members(s[..|s| - 1], key, k) + (if key(s[|s| - 1]) == k then [s[|s| - 1]] else [])
  }

  /** The keys of `s`, each once, in the order they first occur. */
  function FirstKeys<T>(s: seq<T>, key: T -> string): (ks: seq<string>)
    ensures |ks| <= |s|
  {
    if s == [] then []
    else
      var ks := FirstKeys(s[..|s| - 1], key);
      if key(s[|s| - 1]) in ks then ks else ks + [key(s[|s| - 1])]
  }

  /** The index of the first element of `s` with key `k`, or `|s|` when there is none. */
  function FirstIndex<T>(s: seq<T>, key: T -> string, k: string): (i: nat)
    ensures i <= |s|
    ensures i < |s| ==> key(s[i]) == k
    ensures forall m :: 0 <= m < i ==> key(s[m]) != k
  {
    if s == [] then 0
    else
      var i := FirstIndex(s[..|s| - 1], key, k);
      if i < |s| - 1 then i
      else if key(s[|s| - 1]) == k then |s| - 1
      else |s|
  }

  /** The total length of the groups named by `ks`. */
  function SumSizes<T>(s: seq<T>, key: T -> string, ks: seq<string>): nat
  {
    if ks == [] then 0
    else SumSizes(s, key, ks[..|ks| - 1]) + |Members(s, key, ks[|ks| - 1])|
  }

  /** How many elements of `s` have a key among `ks`. */
  function Covered<T>(s: seq<T>, key: T -> string, ks: seq<string>): (n: nat)
    ensures n <= |s|
  {
    if s == [] then 0
    else Covered(s[..|s| - 1], key, ks) + (if key(s[|s| - 1]) in ks then 1 else 0)
  }

  lemma MembersAppend<T>(s: seq<T>, x: T, key: T -> string, k: string)
    ensures Members(s + [x], key, k) == Members(s, key, k) + (if key(x) == k then [x] else [])
  {
    assert (s + [x])[..|s|] == s;
  }

  /**
   * Partition: each occurrence of an element lands in the group named by its
   * key and in no other group.
   */
  lemma {:induction false} MembersCount<T>(s: seq<T>, key: T -> string, k: string, x: T)
    ensures multiset(Members(s, key, k))[x] == if key(x) == k then multiset(s)[x] else 0
  {
    if s != [] {
      var init, last := s[..|s| - 1], s[|s| - 1];
      MembersCount(init, key, k, x);
      assert s == init + [last];
    }
  }

  /** An element is in group `k` exactly when it is in `s` and its key is `k`. */
  lemma MembersIff<T>(s: seq<T>, key: T -> string, k: string, x: T)
    ensures x in Members(s, key, k) <==> x in s && key(x) == k
  {
    MembersCount(s, key, k, x);
    assert x in Members(s, key, k) <==> x in multiset(Members(s, key, k));
    assert x in s <==> x in multiset(s);
  }

  /** Each group keeps the order the elements had in `s`. */
  lemma {:induction false} MembersKeepOrder<T>(cmp: (T, T) -> int, s: seq<T>, key: T -> string, k: string)
    requires Sorted(cmp, s)
    ensures Sorted(cmp, Members(s, key, k))
  {
    if s != [] {
      var init, last := s[..|s| - 1], s[|s| - 1];
      assert Sorted(cmp, init);
      MembersKeepOrder(cmp, init, key, k);
      var g := Members(init, key, k);
      if key(last) == k {
        var g' := g + [last];
        forall i, j | 0 <= i < j < |g'| ensures cmp(g'[i], g'[j]) <= 0 {
          if j == |g| {
            MembersIff(init, key, k, g'[i]);
            var m :| 0 <= m < |init| && init[m] == g'[i];
            assert s[m] == g'[i];
          }
        }
      }
    }
  }

  lemma FirstIndexAppend<T>(s: seq<T>, x: T, key: T -> string, k: string)
    ensures FirstIndex(s + [x], key, k)
         == if FirstIndex(s, key, k) < |s| then FirstIndex(s, key, k)
            else if key(x) == k then |s| else |s| + 1
  {
    assert (s + [x])[..|s|] == s;
  }

  /**
   * The key list holds exactly the keys that occur in `s`, each once, and
   * orders them by where they first occur.
   */
  lemma {:induction false} FirstKeysOrdered<T>(s: seq<T>, key: T -> string)
    ensures NoDuplicates(FirstKeys(s, key))
    ensures forall k :: k in FirstKeys(s, key) <==> FirstIndex(s, key, k) < |s|
    ensures forall i, j :: 0 <= i < j < |FirstKeys(s, key)| ==>
              FirstIndex(s, key, FirstKeys(s, key)[i]) < FirstIndex(s, key, FirstKeys(s, key)[j])
  {
    if s != [] {
      var init, last := s[..|s| - 1], s[|s| - 1];
      assert s == init + [last];
      FirstKeysOrdered(init, key);
      forall k {
        FirstIndexAppend(init, last, key, k);
      }
    }
  }

  /** No group is ever created empty, and every observed key has a group. */
  lemma {:induction false} GroupsNonEmpty<T>(s: seq<T>, key: T -> string, k: string)
    ensures Members(s, key, k) != [] <==> k in FirstKeys(s, key)
  {
    if s != [] {
      GroupsNonEmpty(s[..|s| - 1], key, k);
    }
  }

  lemma {:induction false} SumSizesAppend<T>(s: seq<T>, x: T, key: T -> string, ks: seq<string>)
    requires NoDuplicates(ks)
    ensures SumSizes(s + [x], key, ks) == SumSizes(s, key, ks) + (if key(x) in ks then 1 else 0)
  {
    if ks != [] {
      var init := ks[..|ks| - 1];
      SumSizesAppend(s, x, key, init);
      MembersAppend(s, x, key, ks[|ks| - 1]);
      assert ks == init + [ks[|ks| - 1]];
    }
  }

  /** Over distinct keys, the group sizes add up to the elements those keys cover. */
  lemma {:induction false} SumSizesCovered<T>(s: seq<T>, key: T -> string, ks: seq<string>)
    requires NoDuplicates(ks)
    ensures SumSizes(s, key, ks) == Covered(s, key, ks)
  {
    if s == [] {
      EmptyGroups(key, ks);
    } else {
      var init, last := s[..|s| - 1], s[|s| - 1];
      SumSizesCovered(init, key, ks);
      SumSizesAppend(init, last, key, ks);
      assert s == init + [last];
    }
  }

  lemma {:induction false} EmptyGroups<T>(key: T -> string, ks: seq<string>)
    ensures SumSizes([], key, ks) == 0
  {
    if ks != [] {
      EmptyGroups(key, ks[..|ks| - 1]);
    }
  }

  /** When every key of `s` is among `ks`, all of `s` is covered. */
  lemma {:induction false} CoveredAll<T>(s: seq<T>, key: T -> string, ks: seq<string>)
    requires forall i :: 0 <= i < |s| ==> key(s[i]) in ks
    ensures Covered(s, key, ks) == |s|
  {
    if s != [] {
      CoveredAll(s[..|s| - 1], key, ks);
    }
  }

  /**
   * Distinct headings that include every observed key account for every
   * element: their group sizes add up to `|s|`.
   */
  lemma GroupsCoverAll<T>(s: seq<T>, key: T -> string, ks: seq<string>)
    requires NoDuplicates(ks)
    requires forall k :: k in FirstKeys(s, key) ==> k in ks
    ensures SumSizes(s, key, ks) == |s|
  {
    FirstKeysOrdered(s, key);
    SumSizesCovered(s, key, ks);
    forall i | 0 <= i < |s| ensures key(s[i]) in ks {
      assert FirstIndex(s, key, key(s[i])) <= i;
    }
    CoveredAll(s, key, ks);
  }

  /** The groups of the reduce hold, together, exactly `|s|` elements. */
  lemma GroupSizesSum<T>(s: seq<T>, key: T -> string)
    ensures SumSizes(s, key, FirstKeys(s, key)) == |s|
  {
    FirstKeysOrdered(s, key);
    GroupsCoverAll(s, key, FirstKeys(s, key));
  }

  // ---------------------------------------------------------------------------
  // The order of an object's own keys

  /** The number a string of decimal digits denotes. */
  function DigitsValue(k: string): int
  {
    if k == [] then 0 else DigitsValue(k[..|k| - 1]) * 10 + (k[|k| - 1] as int - '0' as int)
  }

  /** `k` is an array index: the canonical numeral of some `n` with `0 <= n < 2^32 - 1`. */
  predicate IsIndexKey(k: string)
  {
    && k != []
    && (forall i :: 0 <= i < |k| ==> '0' <= k[i] <= '9')
    && (k[0] == '0' ==> k == "0")
    && DigitsValue(k) < 0xFFFF_FFFF
  }

  /** The array-index keys of `ks`, in their order in `ks`. */
  function IndexKeys(ks: seq<string>): (r: seq<string>)
    ensures |r| <= |ks|
  {
    if ks == [] then []
    else IndexKeys(ks[..|ks| - 1]) + (if IsIndexKey(ks[|ks| - 1]) then [ks[|ks| - 1]] else [])
  }

  /** The other keys of `ks`, in their order in `ks`. */
  function NamedKeys(ks: seq<string>): (r: seq<string>)
    ensures |r| <= |ks|
  {
    if ks == [] then []
    else NamedKeys(ks[..|ks| - 1]) + (if IsIndexKey(ks[|ks| - 1]) then [] else [ks[|ks| - 1]])
  }

  lemma {:induction false} IndexKeysAreIndices(ks: seq<string>)
    ensures forall i :: 0 <= i < |IndexKeys(ks)| ==> IsIndexKey(IndexKeys(ks)[i])
  {
    if ks != [] {
      IndexKeysAreIndices(ks[..|ks| - 1]);
    }
  }

  lemma {:induction false} NamedKeysAreNamed(ks: seq<string>)
    ensures forall i :: 0 <= i < |NamedKeys(ks)| ==> !IsIndexKey(NamedKeys(ks)[i])
  {
    if ks != [] {
      NamedKeysAreNamed(ks[..|ks| - 1]);
    }
  }

  /** Array indices compare by the number they denote. */
  function IndexOrder(): (string, string) -> int
  {
    (a: string, b: string) => DigitsValue(a) - DigitsValue(b)
  }

  /**
   * `Object.keys` of an object whose keys were created in the order `ks`:
   * the array indices first, ascending, then the other keys in creation order
   * (OrdinaryOwnPropertyKeys, section 10.1.11.1 of ECMA-262, 2022 edition).
   */
  function OwnKeys(ks: seq<string>): (r: seq<string>)
    ensures |r| == |ks|
  {
    SplitKeysPermutes(ks);
    SortPermutes(IndexOrder(), IndexKeys(ks));
    Sort(IndexOrder(), IndexKeys(ks)) + NamedKeys(ks)
  }

  lemma {:induction false} SplitKeysPermutes(ks: seq<string>)
    ensures multiset(IndexKeys(ks)) + multiset(NamedKeys(ks)) == multiset(ks)
    ensures |IndexKeys(ks)| + |NamedKeys(ks)| == |ks|
  {
    if ks != [] {
      var init, last := ks[..|ks| - 1], ks[|ks| - 1];
      SplitKeysPermutes(init);
      assert ks == init + [last];
      if IsIndexKey(last) {
        assert IndexKeys(ks) == IndexKeys(init) + [last];
        assert NamedKeys(ks) == NamedKeys(init);
      } else {
        assert IndexKeys(ks) == IndexKeys(init);
        assert NamedKeys(ks) == NamedKeys(init) + [last];
      }
    }
  }

  /** `Object.keys` lists each created key exactly as often as it was created. */
  lemma OwnKeysPermutes(ks: seq<string>)
    ensures multiset(OwnKeys(ks)) == multiset(ks)
  {
    SplitKeysPermutes(ks);
    SortPermutes(IndexOrder(), IndexKeys(ks));
  }

  lemma {:induction false} NamedKeysAppend(a: seq<string>, b: seq<string>)
    ensures NamedKeys(a + b) == NamedKeys(a) + NamedKeys(b)
  {
    if b != [] {
      var init := b[..|b| - 1];
      var last := b[|b| - 1];
      NamedKeysAppend(a, init);
      assert a + b == (a + init) + [last];
      assert (a + b)[..|a + b| - 1] == a + init;
      if IsIndexKey(last) {
        assert NamedKeys(b) == NamedKeys(init);
        assert NamedKeys(a + b) == NamedKeys(a + init);
      } else {
        assert NamedKeys(b) == NamedKeys(init) + [last];
        assert NamedKeys(a + b) == NamedKeys(a + init) + [last];
      }
    } else {
      assert a + b == a;
    }
  }

  lemma {:induction false} NamedKeysOfIndices(ks: seq<string>)
    requires forall i :: 0 <= i < |ks| ==> IsIndexKey(ks[i])
    ensures NamedKeys(ks) == []
  {
    if ks != [] {
      NamedKeysOfIndices(ks[..|ks| - 1]);
    }
  }

  lemma {:induction false} NamedKeysOfNamed(ks: seq<string>)
    requires forall i :: 0 <= i < |ks| ==> !IsIndexKey(ks[i])
    ensures NamedKeys(ks) == ks
  {
    if ks != [] {
      var init := ks[..|ks| - 1];
      NamedKeysOfNamed(init);
      assert ks == init + [ks[|ks| - 1]];
    }
  }

  /**
   * The order `Object.keys` reports: every array index comes before every
   * other key, the indices ascend, and the other keys keep their creation
   * order.
   */
  lemma OwnKeysOrder(ks: seq<string>)
    ensures var r := OwnKeys(ks);
            && (forall i, j :: 0 <= i < j < |r| && IsIndexKey(r[j]) ==>
                  IsIndexKey(r[i]) && DigitsValue(r[i]) <= DigitsValue(r[j]))
            && NamedKeys(r) == NamedKeys(ks)
  {
    var sorted := Sort(IndexOrder(), IndexKeys(ks));
    var named := NamedKeys(ks);
    var r := OwnKeys(ks);
    assert r == sorted + named;
    SortedIndices(ks);
    assert forall i :: 0 <= i < |sorted| ==> IsIndexKey(sorted[i]);
    NamedKeysAreNamed(ks);
    forall i, j | 0 <= i < j < |r| && IsIndexKey(r[j])
      ensures IsIndexKey(r[i]) && DigitsValue(r[i]) <= DigitsValue(r[j])
    {
      assert r[i] == sorted[i] && r[j] == sorted[j];
    }
    NamedKeysAppend(sorted, named);
    NamedKeysOfIndices(sorted);
    NamedKeysOfNamed(named);
  }

  /** The sorted array indices are array indices, in ascending order. */
  lemma SortedIndices(ks: seq<string>)
    ensures forall i :: 0 <= i < |Sort(IndexOrder(), IndexKeys(ks))| ==>
              IsIndexKey(Sort(IndexOrder(), IndexKeys(ks))[i])
    ensures forall i, j :: 0 <= i < j < |Sort(IndexOrder(), IndexKeys(ks))| ==>
              DigitsValue(Sort(IndexOrder(), IndexKeys(ks))[i]) <= DigitsValue(Sort(IndexOrder(), IndexKeys(ks))[j])
  {
    var cmp := IndexOrder();
    var idx := IndexKeys(ks);
    var sorted := Sort(cmp, idx);
    SortPermutes(cmp, idx);
    SortSorted(cmp, idx);
    IndexKeysAreIndices(ks);
    forall i | 0 <= i < |sorted| ensures IsIndexKey(sorted[i]) {
      assert sorted[i] in multiset(idx);
    }
    forall i, j | 0 <= i < j < |sorted| ensures DigitsValue(sorted[i]) <= DigitsValue(sorted[j]) {
      assert cmp(sorted[i], sorted[j]) <= 0;
    }
  }

  lemma {:induction false} DistinctCount<T>(s: seq<T>, x: T)
    requires NoDuplicates(s)
    ensures multiset(s)[x] <= 1
  {
    if s != [] {
      var init := s[..|s| - 1];
      DistinctCount(init, x);
      assert s == init + [s[|s| - 1]];
      assert s[|s| - 1] == x ==> x !in init;
    }
  }

  lemma RepeatCount<T>(s: seq<T>, i: nat, j: nat)
    requires i < j < |s| && s[i] == s[j]
    ensures multiset(s)[s[i]] >= 2
  {
    assert s == s[..j] + s[j..];
    assert s[i] in s[..j];
    assert s[j] in s[j..];
  }

  /** `Object.keys` lists exactly the created keys. */
  lemma OwnKeysMembers(ks: seq<string>, k: string)
    ensures k in OwnKeys(ks) <==> k in ks
  {
    OwnKeysPermutes(ks);
    assert k in OwnKeys(ks) <==> k in multiset(OwnKeys(ks));
    assert k in ks <==> k in multiset(ks);
  }

  /** `Object.keys` of distinct created keys lists each of them once. */
  lemma OwnKeysDistinct(ks: seq<string>)
    requires NoDuplicates(ks)
    ensures NoDuplicates(OwnKeys(ks))
  {
    var r := OwnKeys(ks);
    OwnKeysPermutes(ks);
    forall i, j | 0 <= i < j < |r| ensures r[i] != r[j] {
      if r[i] == r[j] {
        RepeatCount(r, i, j);
        DistinctCount(ks, r[i]);
      }
    }
  }

  /** Two listed keys where the later is an array index: the earlier is one too, and not larger. */
  lemma OwnKeysPair(ks: seq<string>, i: nat, j: nat)
    requires i < j < |OwnKeys(ks)|
    requires IsIndexKey(OwnKeys(ks)[j])
    ensures IsIndexKey(OwnKeys(ks)[i]) && DigitsValue(OwnKeys(ks)[i]) <= DigitsValue(OwnKeys(ks)[j])
  {
    OwnKeysOrder(ks);
  }

  /** `Object.keys` of the object the reduce builds. */
  function ListedKeys<T>(s: seq<T>, key: T -> string): seq<string>
  {
    OwnKeys(FirstKeys(s, key))
  }

  /** The listed keys are distinct. */
  lemma ListedKeysDistinct<T>(s: seq<T>, key: T -> string)
    ensures NoDuplicates(ListedKeys(s, key))
  {
    FirstKeysOrdered(s, key);
    OwnKeysDistinct(FirstKeys(s, key));
  }

  /** A key is listed exactly when its group is non-empty. */
  lemma ListedKeysMember<T>(s: seq<T>, key: T -> string, k: string)
    ensures k in ListedKeys(s, key) <==> Members(s, key, k) != []
  {
    OwnKeysMembers(FirstKeys(s, key), k);
    GroupsNonEmpty(s, key, k);
  }

  /** The listed groups hold, together, exactly `|s|` elements. */
  lemma ListedGroupSizesSum<T>(s: seq<T>, key: T -> string)
    ensures SumSizes(s, key, ListedKeys(s, key)) == |s|
  {
    ListedKeysDistinct(s, key);
    forall k | k in FirstKeys(s, key) ensures k in ListedKeys(s, key) {
      OwnKeysMembers(FirstKeys(s, key), k);
    }
    GroupsCoverAll(s, key, ListedKeys(s, key));
  }

  /** When no key is an array index, the keys are listed in the order they were created. */
  lemma ListedInCreationOrder<T>(s: seq<T>, key: T -> string)
    requires forall i :: 0 <= i < |s| ==> !IsIndexKey(key(s[i]))
    ensures ListedKeys(s, key) == FirstKeys(s, key)
  {
    var ks := FirstKeys(s, key);
    FirstKeysOrdered(s, key);
    forall i | 0 <= i < |ks| ensures !IsIndexKey(ks[i]) {
      assert key(s[FirstIndex(s, key, ks[i])]) == ks[i];
    }
    NoIndexKeys(ks);
    NamedKeysOfNamed(ks);
  }

  lemma {:induction false} NoIndexKeys(ks: seq<string>)
    requires forall i :: 0 <= i < |ks| ==> !IsIndexKey(ks[i])
    ensures IndexKeys(ks) == []
  {
    if ks != [] {
      NoIndexKeys(ks[..|ks| - 1]);
    }
  }

  /**
   * The property names every plain object `{}` inherits from
   * `Object.prototype`. Reading one gives a truthy value (a function, or the
   * prototype itself for "__proto__"), never a list.
   */
  predicate Inherited(k: string)
  {
    k in {"constructor", "__defineGetter__", "__defineSetter__", "hasOwnProperty", "__lookupGetter__",
          "__lookupSetter__", "isPrototypeOf", "propertyIsEnumerable", "toString", "valueOf",
          "__proto__", "toLocaleString"}
  }

  /**
   * Some element's key is an inherited name: `!acc[k]` is false for it, no
   * list is created, and `acc[k].push` is not a function, so the reduce
   * throws a TypeError.
   */
  predicate ThrowsOn<T>(s: seq<T>, key: T -> string)
  {
    exists i :: 0 <= i < |s| && Inherited(key(s[i]))
  }

  /** An element whose key is not inherited extends a prefix on which the reduce does not throw. */
  lemma NoThrowExtends<T>(s: seq<T>, key: T -> string, i: nat)
    requires i < |s|
    requires !ThrowsOn(s[..i], key) && !Inherited(key(s[i]))
    ensures !ThrowsOn(s[..i + 1], key)
  {
    var seen := s[..i + 1];
    forall j | 0 <= j < |seen| ensures !Inherited(key(seen[j])) {
      if j < i {
        assert seen[j] == s[..i][j];
      }
    }
  }

  /** Every inherited name starts with a lower-case letter or "_". */
  lemma InheritedInitial(k: string)
    ensures Inherited(k) ==> k[0] == '_' || 'a' <= k[0] <= 'z'
  {
  }

  /** When the reduce does not throw, none of the keys it creates is an inherited name. */
  lemma CreatedNotInherited<T>(s: seq<T>, key: T -> string, k: string)
    requires !ThrowsOn(s, key)
    requires k in FirstKeys(s, key)
    ensures !Inherited(k)
  {
    FirstKeysOrdered(s, key);
    var i := FirstIndex(s, key, k);
    assert key(s[i]) == k;
  }

  lemma FirstKeysPush<T>(s: seq<T>, key: T -> string, i: nat)
    requires i < |s|
    ensures FirstKeys(s[..i + 1], key)
            == if key(s[i]) in FirstKeys(s[..i], key) then FirstKeys(s[..i], key) else FirstKeys(s[..i], key) + [key(s[i])]
  {
    assert s[..i + 1][..i] == s[..i];
  }

  lemma MembersPush<T>(s: seq<T>, key: T -> string, i: nat, k: string)
    requires i < |s|
    ensures Members(s[..i + 1], key, k) == Members(s[..i], key, k) + (if key(s[i]) == k then [s[i]] else [])
  {
    assert s[..i + 1][..i] == s[..i];
  }

  /**
   * `s.reduce((acc, x) => { if (!acc[k]) acc[k] = []; acc[k].push(x); ... }, {})`
   * with `k = key(x)`: throws at the first element whose key is inherited;
   * otherwise returns the object's keys in insertion order and its lists.
   */
  method GroupBy<T>(s: seq<T>, key: T -> string) returns (thrown: bool, keys: seq<string>, groups: map<string, seq<T>>)
    ensures thrown <==> ThrowsOn(s, key)
    ensures !thrown ==> keys == FirstKeys(s, key)
    ensures !thrown ==> forall k :: k in groups <==> k in keys
    ensures !thrown ==> forall k :: k in groups ==> groups[k] == Members(s, key, k)
  {
    thrown, keys, groups := false, [], map[];
    for i := 0 to |s|
      invariant !ThrowsOn(s[..i], key)
      invariant keys == FirstKeys(s[..i], key)
      invariant forall k :: k in groups <==> k in keys
      invariant forall k :: k in groups ==> groups[k] == Members(s[..i], key, k)
    {
      var k := key(s[i]);
      if Inherited(k) {
        thrown := true;
        return;
      }
      FirstKeysPush(s, key, i);
      GroupsNonEmpty(s[..i], key, k);
      if k !in groups {
        keys := keys + [k];
        groups := groups[k := []];
      }
      groups := groups[k := groups[k] + [s[i]]];
      forall k' | k' in groups {
        MembersPush(s, key, i, k');
      }
      NoThrowExtends(s, key, i);
    }
    assert s[..|s|] == s;
  }
}
