/**
 * The `processTickets` step of the kanban board component: bucket the tickets
 * by the value of the field named by `grouping` (falling back to
 * "Unassigned"), then sort each bucket in place by `sorting`.
 */
module KanbanBoard {
  import opened Tickets
  import opened StableSort
  import opened Grouping

  /** A ticket field as a JavaScript property read sees it. */
  datatype Value = Missing | Text(s: string) | Number(n: int)

  /** `ticket[name]`: the record's own fields; any other name reads as `undefined`. */
  function Field(t: Ticket, name: string): (v: Value)
    ensures v.Missing? <==> name !in {"id", "title", "body", "userId", "status", "priority"}
    ensures v.Number? <==> name == "priority"
  {
    match name
    case "id" => Text(t.id)
    case "title" => Text(t.title)
    case "body" => Text(t.body)
    case "userId" => Text(t.userId)
    case "status" => Text(t.status)
    case "priority" => Number(t.priority)
    case _ => Missing
  }

  /** JavaScript truthiness: a non-empty string, a non-zero number. */
  predicate Truthy(v: Value)
  {
    match v
    case Missing => false
    case Text(s) => s != ""
    case Number(n) => n != 0
  }

  /** The decimal digit `d`. */
  function Digit(d: nat): (c: char)
    requires d < 10
    ensures '0' <= c <= '9'
  {
    (48 + d) as char
  }

  /** The decimal numeral of `n`, without leading zeros. */
  function Numeral(n: nat): (s: string)
    ensures |s| >= 1
    ensures forall i :: 0 <= i < |s| ==> '0' <= s[i] <= '9'
    ensures n >= 10 ==> |s| >= 2
    ensures n > 0 ==> s[0] != '0'
  {
    if n < 10 then [Digit(n)] else Numeral(n / 10) + [Digit(n % 10)]
  }

  /** A numeral denotes the number it was written for. */
  lemma {:induction false} NumeralValue(n: nat)
    ensures DigitsValue(Numeral(n)) == n
  {
    if n >= 10 {
      var s := Numeral(n);
      NumeralValue(n / 10);
      assert s[..|s| - 1] == Numeral(n / 10);
    }
  }

  /** `String(n)` for an integer: an optional minus sign and the numeral. */
  function Decimal(n: int): (s: string)
    ensures s != [] && (s[0] == '-' || '0' <= s[0] <= '9')
    ensures s[0] == '-' <==> n < 0
  {
    if n < 0 then "-" + Numeral(-n) else Numeral(n)
  }

  /** Distinct numbers have distinct numerals. */
  lemma {:induction false} NumeralInjective(m: nat, n: nat)
    requires Numeral(m) == Numeral(n)
    ensures m == n
  {
    if m >= 10 && n >= 10 {
      var sm, sn := Numeral(m), Numeral(n);
      assert sm[..|sm| - 1] == Numeral(m / 10);
      assert sn[..|sn| - 1] == Numeral(n / 10);
      NumeralInjective(m / 10, n / 10);
      assert Digit(m % 10) == sm[|sm| - 1] == sn[|sn| - 1] == Digit(n % 10);
    }
  }

  /** Distinct priorities give distinct property keys. */
  lemma DecimalInjective(m: int, n: int)
    requires Decimal(m) == Decimal(n)
    ensures m == n
  {
    if m < 0 {
      assert Decimal(m)[1..] == Numeral(-m);
      assert Decimal(n)[1..] == Numeral(-n);
      NumeralInjective(-m, -n);
    } else {
      NumeralInjective(m, n);
    }
  }

  /** The string a value becomes when it is used as a property key. */
  function PropertyKey(v: Value): string
  {
    match v
    case Missing => "undefined"
    case Text(s) => s
    case Number(n) => Decimal(n)
  }

  /** `ticket[grouping] || "Unassigned"`, used as the bucket's key. */
  function BoardKey(grouping: string, t: Ticket): string
  {
    var v := Field(t, grouping);
    if Truthy(v) then PropertyKey(v) else "Unassigned"
  }

  function KeyOf(grouping: string): Ticket -> string
  {
    (t: Ticket) => BoardKey(grouping, t)
  }

  /**
   * The per-bucket comparator: ascending priority, or no order. Tickets carry
   * no `dueDate`, so both dates are invalid and their difference is NaN,
   * which the sort treats as 0.
   */
  function Comparator(sorting: string): (Ticket, Ticket) -> int
  {
    (a: Ticket, b: Ticket) =>
      if sorting == "priority" then a.priority - b.priority
      else if sorting == "dueDate" then 0
      else 0
  }

  /** One column of the board: its heading and its tickets. */
  datatype Group = Group(group: string, tickets: seq<Ticket>)

  /** The sorted bucket `k`, as the specification of each column. */
  function SortedBucket(tickets: seq<Ticket>, grouping: string, sorting: string, k: string): seq<Ticket>
  {
    Sort(Comparator(sorting), Members(tickets, KeyOf(grouping), k))
  }

  /**
   * `processTickets`: it throws when a ticket's key is an inherited name;
   * otherwise one group per bucket, in the order `Object.keys` lists the
   * buckets, each holding that key's tickets sorted in place.
   */
  method ProcessTickets(tickets: seq<Ticket>, grouping: string, sorting: string) returns (r: Outcome<seq<Group>>)
    ensures r.Thrown? <==> ThrowsOn(tickets, KeyOf(grouping))
    ensures r.Returned? ==> |r.value| == |ListedKeys(tickets, KeyOf(grouping))|
    ensures r.Returned? ==> forall i :: 0 <= i < |r.value| ==>
              r.value[i] == Group(ListedKeys(tickets, KeyOf(grouping))[i],
                                  SortedBucket(tickets, grouping, sorting, ListedKeys(tickets, KeyOf(grouping))[i]))
  {
    var key, cmp := KeyOf(grouping), Comparator(sorting);
    r := GroupAndSort(tickets, key, cmp);
    if r.Returned? {
      var groups := r.value;
      forall i | 0 <= i < |groups|
        ensures groups[i] == Group(ListedKeys(tickets, key)[i], Sort(cmp, Members(tickets, key, ListedKeys(tickets, key)[i])))
      {
        GroupsAt(tickets, key, cmp, ListedKeys(tickets, key), i);
      }
    }
  }

  /** The groups for the keys `ks`: each key with its bucket, sorted. */
  function Groups(tickets: seq<Ticket>, key: Ticket -> string, cmp: (Ticket, Ticket) -> int, ks: seq<string>): (r: seq<Group>)
    ensures |r| == |ks|
  {
    if ks == [] then []
    else Groups(tickets, key, cmp, ks[..|ks| - 1]) + [Group(ks[|ks| - 1], Sort(cmp, Members(tickets, key, ks[|ks| - 1])))]
  }

  lemma {:induction false} GroupsAt(tickets: seq<Ticket>, key: Ticket -> string, cmp: (Ticket, Ticket) -> int,
                                    ks: seq<string>, i: nat)
    requires i < |ks|
    ensures Groups(tickets, key, cmp, ks)[i] == Group(ks[i], Sort(cmp, Members(tickets, key, ks[i])))
  {
    if i < |ks| - 1 {
      GroupsAt(tickets, key, cmp, ks[..|ks| - 1], i);
    }
  }

  /** The `map` over the bucket keys: each bucket of `buckets`, sorted. */
  function SortEach(buckets: map<string, seq<Ticket>>, cmp: (Ticket, Ticket) -> int, ks: seq<string>): (r: seq<Group>)
    requires forall k :: k in ks ==> k in buckets
    ensures |r| == |ks|
  {
    if ks == [] then []
    else SortEach(buckets, cmp, ks[..|ks| - 1]) + [Group(ks[|ks| - 1], Sort(cmp, buckets[ks[|ks| - 1]]))]
  }

  /** Sorting each bucket of the reduce gives the groups of the keys. */
  lemma {:induction false} SortEachGroups(tickets: seq<Ticket>, key: Ticket -> string, cmp: (Ticket, Ticket) -> int,
                                          buckets: map<string, seq<Ticket>>, ks: seq<string>)
    requires forall k :: k in ks ==> k in buckets && buckets[k] == Members(tickets, key, k)
    ensures SortEach(buckets, cmp, ks) == Groups(tickets, key, cmp, ks)
  {
    if ks != [] {
      SortEachGroups(tickets, key, cmp, buckets, ks[..|ks| - 1]);
    }
  }

  /** The reduce into buckets under `key`, then each listed bucket sorted by `cmp`. */
  method GroupAndSort(tickets: seq<Ticket>, key: Ticket -> string, cmp: (Ticket, Ticket) -> int)
    returns (r: Outcome<seq<Group>>)
    ensures r.Thrown? <==> ThrowsOn(tickets, key)
    ensures r.Returned? ==> r.value == Groups(tickets, key, cmp, ListedKeys(tickets, key))
  {
    var thrown, created, buckets := GroupBy(tickets, key);
    if thrown {
      return Thrown;
    }
    var keys := OwnKeys(created);
    ListedBuckets(tickets, key, created, buckets);
    var groups := SortBuckets(buckets, cmp, keys);
    SortEachGroups(tickets, key, cmp, buckets, keys);
    r := Returned(groups);
  }

  /** `Object.keys(groupedTickets).map(...)`: each listed bucket, sorted in place, with its key. */
  method SortBuckets(buckets: map<string, seq<Ticket>>, cmp: (Ticket, Ticket) -> int, keys: seq<string>)
    returns (groups: seq<Group>)
    requires forall k :: k in keys ==> k in buckets
    ensures groups == SortEach(buckets, cmp, keys)
  {
    groups := [];
    for i := 0 to |keys|
      invariant groups == SortEach(buckets, cmp, keys[..i])
    {
      var sorted := SortBucket(buckets[keys[i]], cmp);
      SortEachStep(buckets, cmp, keys, i);
      groups := groups + [Group(keys[i], sorted)];
    }
    assert keys[..|keys|] == keys;
  }

  /** Every key `Object.keys` lists names a bucket of the reduce, and that bucket is the key's members. */
  lemma ListedBuckets(tickets: seq<Ticket>, key: Ticket -> string, created: seq<string>, buckets: map<string, seq<Ticket>>)
    requires created == FirstKeys(tickets, key)
    requires forall k :: k in buckets <==> k in created
    requires forall k :: k in buckets ==> buckets[k] == Members(tickets, key, k)
    ensures forall k :: k in OwnKeys(created) ==> k in buckets && buckets[k] == Members(tickets, key, k)
  {
    forall k | k in OwnKeys(created) ensures k in buckets && buckets[k] == Members(tickets, key, k) {
      OwnKeysMembers(created, k);
    }
  }

  lemma SortEachStep(buckets: map<string, seq<Ticket>>, cmp: (Ticket, Ticket) -> int, ks: seq<string>, i: nat)
    requires i < |ks|
    requires forall k :: k in ks ==> k in buckets
    ensures SortEach(buckets, cmp, ks[..i + 1]) == SortEach(buckets, cmp, ks[..i]) + [Group(ks[i], Sort(cmp, buckets[ks[i]]))]
  {
    assert ks[..i + 1][..i] == ks[..i];
  }

  /** `groupedTickets[groupKey].sort(cmp)`: the bucket's array, sorted in place. */
  method SortBucket(bucket: seq<Ticket>, cmp: (Ticket, Ticket) -> int) returns (sorted: seq<Ticket>)
    ensures sorted == Sort(cmp, bucket)
  {
    var a := new Ticket[|bucket|](j requires 0 <= j < |bucket| => bucket[j]);
    assert a[..] == bucket;
    SortInPlace(a, cmp);
    sorted := a[..];
  }

  // ---------------------------------------------------------------------------
  // What the groups are

  /**
   * The buckets partition the tickets: the headings are distinct, no bucket
   * is empty, a ticket is in bucket `k` exactly when its key is `k`, and the
   * sizes add up to the number of tickets.
   */
  lemma BucketsPartition(tickets: seq<Ticket>, grouping: string, sorting: string, k: string, t: Ticket)
    ensures NoDuplicates(ListedKeys(tickets, KeyOf(grouping)))
    ensures SortedBucket(tickets, grouping, sorting, k) != [] <==> k in ListedKeys(tickets, KeyOf(grouping))
    ensures multiset(SortedBucket(tickets, grouping, sorting, k))[t]
         == if BoardKey(grouping, t) == k then multiset(tickets)[t] else 0
    ensures SumSizes(tickets, KeyOf(grouping), ListedKeys(tickets, KeyOf(grouping))) == |tickets|
  {
    var key := KeyOf(grouping);
    ListedKeysDistinct(tickets, key);
    ListedKeysMember(tickets, key, k);
    SortPermutes(Comparator(sorting), Members(tickets, key, k));
    MembersCount(tickets, key, k, t);
    ListedGroupSizesSum(tickets, key);
  }

  lemma {:induction false} PriorityTies(s: seq<Ticket>, pivot: Ticket)
    ensures Ties(Comparator("priority"), s, pivot) == WithPriority(s, pivot.priority)
  {
    if s != [] {
      PriorityTies(s[..|s| - 1], pivot);
    }
  }

  /**
   * Sorting by priority: each bucket ends up lowest priority first, and
   * tickets of equal priority keep the order they had in the input.
   */
  lemma BucketByPriority(tickets: seq<Ticket>, grouping: string, k: string)
    ensures var g := SortedBucket(tickets, grouping, "priority", k);
            && (forall i, j :: 0 <= i < j < |g| ==> g[i].priority <= g[j].priority)
            && (forall n :: WithPriority(g, n) == WithPriority(Members(tickets, KeyOf(grouping), k), n))
  {
    var cmp := Comparator("priority");
    var bucket := Members(tickets, KeyOf(grouping), k);
    var g := SortedBucket(tickets, grouping, "priority", k);
    assert Collation(cmp);
    SortSorted(cmp, bucket);
    assert forall i, j :: 0 <= i < j < |g| ==> cmp(g[i], g[j]) <= 0;
    forall n ensures WithPriority(g, n) == WithPriority(bucket, n) {
      var pivot := Ticket("", "", "", "", "", n);
      SortStable(cmp, bucket, pivot);
      PriorityTies(g, pivot);
      PriorityTies(bucket, pivot);
    }
  }

  /** Any other sorting, "dueDate" included, leaves each bucket in input order. */
  lemma BucketKeepsOrder(tickets: seq<Ticket>, grouping: string, sorting: string, k: string)
    requires sorting != "priority"
    ensures SortedBucket(tickets, grouping, sorting, k) == Members(tickets, KeyOf(grouping), k)
  {
    AllTiedKeepsOrder(Comparator(sorting), Members(tickets, KeyOf(grouping), k));
  }

  /**
   * Grouping by priority: priority 0 is falsy, so those tickets go to
   * "Unassigned"; every other priority `n` has the bucket `String(n)`.
   */
  lemma PriorityKey(t: Ticket, n: int)
    requires n != 0
    ensures BoardKey("priority", t) == "Unassigned" <==> t.priority == 0
    ensures BoardKey("priority", t) == Decimal(n) <==> t.priority == n
  {
    if t.priority != 0 && Decimal(t.priority) == Decimal(n) {
      DecimalInjective(t.priority, n);
    }
  }

  /** Under priority grouping, bucket `String(n)` holds exactly the tickets of priority `n`. */
  lemma PriorityBucket(tickets: seq<Ticket>, n: int, t: Ticket)
    requires n != 0
    ensures t in Members(tickets, KeyOf("priority"), Decimal(n)) <==> t in tickets && t.priority == n
  {
    MembersIff(tickets, KeyOf("priority"), Decimal(n), t);
    PriorityKey(t, n);
  }

  /**
   * A grouping that names no ticket field puts every ticket into the one
   * bucket "Unassigned", in input order.
   */
  lemma {:induction false} UnknownFieldOneBucket(tickets: seq<Ticket>, grouping: string)
    requires grouping !in {"id", "title", "body", "userId", "status", "priority"}
    ensures Members(tickets, KeyOf(grouping), "Unassigned") == tickets
    ensures FirstKeys(tickets, KeyOf(grouping)) == if tickets == [] then [] else ["Unassigned"]
  {
    if tickets != [] {
      var init := tickets[..|tickets| - 1];
      UnknownFieldOneBucket(init, grouping);
      assert init + [tickets[|tickets| - 1]] == tickets;
    }
  }

  /**
   * Grouping by priority: the columns of positive priorities come first, in
   * ascending priority, ahead of "Unassigned" and of negative priorities.
   */
  lemma PriorityColumnsAscend(tickets: seq<Ticket>, i: nat, j: nat, a: Ticket, b: Ticket)
    requires i < j < |ListedKeys(tickets, KeyOf("priority"))|
    requires BoardKey("priority", a) == ListedKeys(tickets, KeyOf("priority"))[i]
    requires BoardKey("priority", b) == ListedKeys(tickets, KeyOf("priority"))[j]
    requires 0 < b.priority < 0xFFFF_FFFF
    ensures 0 < a.priority < b.priority
  {
    var headings := ListedKeys(tickets, KeyOf("priority"));
    ListedKeysDistinct(tickets, KeyOf("priority"));
    assert headings[i] != headings[j];
    PriorityIndexKey(b);
    OwnKeysPair(FirstKeys(tickets, KeyOf("priority")), i, j);
    PriorityIndexKey(a);
  }

  /**
   * A priority's bucket key is an array index exactly for the priorities
   * 1 to 2^32 - 2, and then it denotes that priority.
   */
  /** Priority grouping never throws: its keys are "Unassigned" and numerals, none of them an inherited name. */
  lemma PriorityGroupingNeverThrows(tickets: seq<Ticket>)
    ensures !ThrowsOn(tickets, KeyOf("priority"))
  {
    forall i | 0 <= i < |tickets| ensures !Inherited(KeyOf("priority")(tickets[i])) {
      var k := BoardKey("priority", tickets[i]);
      InheritedInitial(k);
      if tickets[i].priority != 0 {
        assert k == Decimal(tickets[i].priority);
      }
    }
  }

  lemma PriorityIndexKey(t: Ticket)
    ensures IsIndexKey(BoardKey("priority", t)) <==> 0 < t.priority < 0xFFFF_FFFF
    ensures 0 < t.priority ==> DigitsValue(BoardKey("priority", t)) == t.priority
  {
    var k := BoardKey("priority", t);
    if t.priority > 0 {
      NumeralValue(t.priority);
      assert k == Numeral(t.priority);
    } else if t.priority == 0 {
      assert k == "Unassigned";
      assert !('0' <= k[0] <= '9');
    } else {
      assert k[0] == '-';
    }
  }
}
