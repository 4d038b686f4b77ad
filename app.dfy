/**
 * The board engine of `App`: resolve user names, sort the whole ticket list,
 * bucket the sorted list by the chosen grouping, and choose the columns to
 * show. Also the two preference defaults and the title shortening on cards.
 */
module App {
  import opened Tickets
  import opened StableSort
  import opened Grouping

  /** The three grouping modes the board offers. */
  datatype GroupingMode = ByStatus | ByUser | ByPriority

  /**
   * One rendered column: its heading and the tickets listed under it, or its
   * heading over the notice "No tickets in this category".
   */
  datatype Column = Column(group: string, tickets: seq<Ticket>) | NoTickets(group: string)

  const PriorityOrder: seq<string> := ["No Priority", "Urgent", "High", "Medium", "Low"]
  const Statuses: seq<string> := ["Todo", "In progress", "Backlog", "Done", "Cancelled"]

  // ---------------------------------------------------------------------------
  // User names

  /** The name of the first user whose id is `id`, or "Unknown User". */
  function UserName(users: seq<User>, id: string): (name: string)
    ensures (forall i :: 0 <= i < |users| ==> users[i].id != id) ==> name == "Unknown User"
    ensures forall i :: 0 <= i < |users| && users[i].id == id && (forall j :: 0 <= j < i ==> users[j].id != id)
                        ==> name == users[i].name
  {
    if users == [] then "Unknown User"
    else if users[0].id == id then users[0].name
    else UserName(users[1..], id)
  }

  // ---------------------------------------------------------------------------
  // Priority labels

  /** The column caption of a priority; anything outside 0..4 is "Unknown Priority". */
  function PriorityLabel(priority: int): (caption: string)
    ensures caption in PriorityOrder <==> 0 <= priority <= 4
    ensures caption !in PriorityOrder ==> caption == "Unknown Priority"
  {
    match priority
    case 0 => "No Priority"
    case 4 => "Urgent"
    case 3 => "High"
    case 2 => "Medium"
    case 1 => "Low"
    case _ => "Unknown Priority"
  }

  /** The priority a column label stands for. */
  function PriorityOf(caption: string): Option<int>
  {
    if caption == "No Priority" then Some(0)
    else if caption == "Urgent" then Some(4)
    else if caption == "High" then Some(3)
    else if caption == "Medium" then Some(2)
    else if caption == "Low" then Some(1)
    else None
  }

  /** The caption table is one-to-one on 0..4 and `PriorityOf` inverts it. */
  lemma PriorityLabelRoundTrip(priority: int, caption: string)
    ensures 0 <= priority <= 4 ==> PriorityOf(PriorityLabel(priority)) == Some(priority)
    ensures PriorityOf(caption) == Some(priority) ==> PriorityLabel(priority) == caption
    ensures PriorityOf(caption).Some? <==> caption in PriorityOrder
  {
  }

  // ---------------------------------------------------------------------------
  // The global sort

  /** The comparator handed to `sort`: by priority, highest first; by title; or no order. */
  function Comparator(sorting: string, collate: (string, string) -> int): (Ticket, Ticket) -> int
  {
    (a: Ticket, b: Ticket) =>
      if sorting == "priority" then b.priority - a.priority
      else if sorting == "title" then collate(a.title, b.title)
      else 0
  }

  /** `[...tickets].sort(comparator)`: a sorted copy, the input left as it is. */
  function SortedTickets(tickets: seq<Ticket>, sorting: string, collate: (string, string) -> int): (sorted: seq<Ticket>)
    ensures multiset(sorted) == multiset(tickets)
  {
    SortPermutes(Comparator(sorting, collate), tickets);
    Sort(Comparator(sorting, collate), tickets)
  }

  lemma {:induction false} PriorityTies(s: seq<Ticket>, collate: (string, string) -> int, pivot: Ticket)
    ensures Ties(Comparator("priority", collate), s, pivot) == WithPriority(s, pivot.priority)
  {
    if s != [] {
      PriorityTies(s[..|s| - 1], collate, pivot);
    }
  }

  /**
   * Sorting by priority: a permutation of the tickets, highest priority first,
   * and tickets of equal priority in their input order.
   */
  lemma SortByPriority(tickets: seq<Ticket>, collate: (string, string) -> int)
    ensures var sorted := SortedTickets(tickets, "priority", collate);
            && multiset(sorted) == multiset(tickets)
            && (forall i, j :: 0 <= i < j < |sorted| ==> sorted[i].priority >= sorted[j].priority)
            && (forall n :: WithPriority(sorted, n) == WithPriority(tickets, n))
  {
    var cmp := Comparator("priority", collate);
    var sorted := SortedTickets(tickets, "priority", collate);
    assert Collation(cmp);
    SortSorted(cmp, tickets);
    assert forall i, j :: 0 <= i < j < |sorted| ==> cmp(sorted[i], sorted[j]) <= 0;
    forall n ensures WithPriority(sorted, n) == WithPriority(tickets, n) {
      var pivot := Ticket("", "", "", "", "", n);
      SortStable(cmp, tickets, pivot);
      PriorityTies(sorted, collate, pivot);
      PriorityTies(tickets, collate, pivot);
    }
  }

  /**
   * Sorting by title, for a consistent collation: a permutation, titles in
   * collation order, and tickets whose titles collate equal in input order.
   */
  lemma SortByTitle(tickets: seq<Ticket>, collate: (string, string) -> int, pivot: Ticket)
    requires Collation(collate)
    ensures var sorted := SortedTickets(tickets, "title", collate);
            && multiset(sorted) == multiset(tickets)
            && (forall i, j :: 0 <= i < j < |sorted| ==> collate(sorted[i].title, sorted[j].title) <= 0)
            && Ties(Comparator("title", collate), sorted, pivot) == Ties(Comparator("title", collate), tickets, pivot)
  {
    var cmp := Comparator("title", collate);
    var sorted := SortedTickets(tickets, "title", collate);
    assert Collation(cmp) by {
      forall a: Ticket, b: Ticket ensures cmp(a, b) <= 0 || cmp(b, a) <= 0 {
        assert collate(a.title, b.title) <= 0 || collate(b.title, a.title) <= 0;
      }
      forall a: Ticket, b: Ticket, c: Ticket | cmp(a, b) <= 0 && cmp(b, c) <= 0 ensures cmp(a, c) <= 0 {
        assert collate(a.title, b.title) <= 0 && collate(b.title, c.title) <= 0;
      }
    }
    SortSorted(cmp, tickets);
    assert forall i, j :: 0 <= i < j < |sorted| ==> cmp(sorted[i], sorted[j]) <= 0;
    SortStable(cmp, tickets, pivot);
  }

  /** Any other sorting value compares everything equal, so the order is kept. */
  lemma SortOtherKeepsOrder(tickets: seq<Ticket>, sorting: string, collate: (string, string) -> int)
    requires sorting != "priority" && sorting != "title"
    ensures SortedTickets(tickets, sorting, collate) == tickets
  {
    AllTiedKeepsOrder(Comparator(sorting, collate), tickets);
  }

  // ---------------------------------------------------------------------------
  // Grouping keys and columns

  /** The key a ticket is bucketed under. */
  function GroupKey(grouping: GroupingMode, users: seq<User>, t: Ticket): string
  {
    match grouping
    case ByStatus => t.status
    case ByUser => UserName(users, t.userId)
    case ByPriority => PriorityLabel(t.priority)
  }

  function KeyOf(grouping: GroupingMode, users: seq<User>): Ticket -> string
  {
    t => GroupKey(grouping, users, t)
  }

  /** The observed keys that are not canonical statuses, in their order. */
  function Extras(observed: seq<string>): (extras: seq<string>)
    ensures |extras| <= |observed|
  {
    if observed == [] then []
    else
      var last := observed[|observed| - 1];
      Extras(observed[..|observed| - 1]) + (if last in Statuses then [] else [last])
  }

  /** `getGroupedKeys`: the column headings, given the keys the grouping observed. */
  function GroupedKeys(grouping: GroupingMode, users: seq<User>, observed: seq<string>): (columns: seq<string>)
    ensures grouping == ByUser ==>
              && |columns| == (if |users| < 5 then |users| else 5)
              && forall i :: 0 <= i < |columns| ==> columns[i] == UserName(users, users[i].id)
    ensures grouping == ByStatus ==> |columns| >= 5 && columns[..5] == Statuses
    ensures grouping == ByPriority ==> columns == PriorityOrder
  {
    match grouping
    case ByUser =>
      var n := if |users| < 5 then |users| else 5;
      seq(n, i requires 0 <= i < n => UserName(users, users[i].id))
    case ByPriority => PriorityOrder
    case ByStatus => Statuses + Extras(observed)
  }

  lemma {:induction false} ExtrasMembers(observed: seq<string>, k: string)
    ensures k in Extras(observed) <==> k in observed && k !in Statuses
  {
    if observed != [] {
      var init := observed[..|observed| - 1];
      ExtrasMembers(init, k);
      assert observed == init + [observed[|observed| - 1]];
    }
  }

  lemma {:induction false} ExtrasDistinct(observed: seq<string>)
    requires NoDuplicates(observed)
    ensures NoDuplicates(Extras(observed))
  {
    if observed != [] {
      var init, last := observed[..|observed| - 1], observed[|observed| - 1];
      ExtrasDistinct(init);
      ExtrasMembers(init, last);
      assert last !in init;
    }
  }

  /** Filtering keeps any strictly increasing ranking increasing. */
  lemma {:induction false} ExtrasKeepOrder(observed: seq<string>, rank: string -> int)
    requires forall i, j :: 0 <= i < j < |observed| ==> rank(observed[i]) < rank(observed[j])
    ensures forall i, j :: 0 <= i < j < |Extras(observed)| ==> rank(Extras(observed)[i]) < rank(Extras(observed)[j])
  {
    if observed != [] {
      var init, last := observed[..|observed| - 1], observed[|observed| - 1];
      ExtrasKeepOrder(init, rank);
      var e := Extras(init);
      if last !in Statuses {
        var e' := e + [last];
        forall i, j | 0 <= i < j < |e'| ensures rank(e'[i]) < rank(e'[j]) {
          if j == |e| {
            ExtrasMembers(init, e'[i]);
            var m :| 0 <= m < |init| && init[m] == e'[i];
            assert observed[m] == e'[i];
          }
        }
      }
    }
  }

  /**
   * Status columns: the five canonical statuses in their fixed order, then
   * every other observed key, with no heading twice.
   */
  lemma StatusColumnsShape(users: seq<User>, observed: seq<string>)
    requires NoDuplicates(observed)
    ensures var columns := GroupedKeys(ByStatus, users, observed);
            && columns[..5] == Statuses
            && NoDuplicates(columns)
            && (forall k :: k in columns <==> k in Statuses || k in observed)
  {
    var columns := GroupedKeys(ByStatus, users, observed);
    ExtrasDistinct(observed);
    forall k ensures k in columns <==> k in Statuses || k in observed {
      ExtrasMembers(observed, k);
    }
    forall i, j | 0 <= i < j < |columns| ensures columns[i] != columns[j] {
      if i < 5 && j >= 5 {
        ExtrasMembers(observed, columns[j]);
      }
    }
  }

  /**
   * When no status is an array index, the extra status columns come in the
   * order their keys first occur in the sorted tickets.
   */
  lemma StatusColumnsFirstObserved(sorted: seq<Ticket>, users: seq<User>)
    requires forall i :: 0 <= i < |sorted| ==> !IsIndexKey(sorted[i].status)
    ensures var key := KeyOf(ByStatus, users);
            var columns := GroupedKeys(ByStatus, users, ListedKeys(sorted, key));
            forall i, j :: 5 <= i < j < |columns| ==>
              FirstIndex(sorted, key, columns[i]) < FirstIndex(sorted, key, columns[j])
  {
    var key := KeyOf(ByStatus, users);
    var observed := FirstKeys(sorted, key);
    var columns := GroupedKeys(ByStatus, users, observed);
    var extras := Extras(observed);
    ListedInCreationOrder(sorted, key);
    FirstKeysOrdered(sorted, key);
    ExtrasKeepOrder(observed, k => FirstIndex(sorted, key, k));
    forall i, j | 5 <= i < j < |columns|
      ensures FirstIndex(sorted, key, columns[i]) < FirstIndex(sorted, key, columns[j])
    {
      assert columns[i] == extras[i - 5] && columns[j] == extras[j - 5];
    }
  }

  /** User columns: when user ids are distinct, the headings are the first five users' names. */
  lemma UserColumns(users: seq<User>, observed: seq<string>)
    requires forall i, j :: 0 <= i < j < |users| ==> users[i].id != users[j].id
    ensures var columns := GroupedKeys(ByUser, users, observed);
            && |columns| == (if |users| < 5 then |users| else 5)
            && forall i :: 0 <= i < |columns| ==> columns[i] == users[i].name
  {
    var columns := GroupedKeys(ByUser, users, observed);
    forall i | 0 <= i < |columns| ensures columns[i] == users[i].name {
      assert forall j :: 0 <= j < i ==> users[j].id != users[i].id;
    }
  }

  /**
   * Priority columns: a ticket is listed under exactly the heading of its
   * priority, so one whose priority is outside 0..4 is listed nowhere.
   */
  lemma PriorityColumns(tickets: seq<Ticket>, users: seq<User>, sorting: string, collate: (string, string) -> int)
    ensures var sorted := SortedTickets(tickets, sorting, collate);
            var key := KeyOf(ByPriority, users);
            forall t, i :: 0 <= i < 5 ==>
              (t in Members(sorted, key, PriorityOrder[i]) <==> t in tickets && PriorityLabel(t.priority) == PriorityOrder[i])
  {
    var sorted := SortedTickets(tickets, sorting, collate);
    var key := KeyOf(ByPriority, users);
    forall t, i | 0 <= i < 5
      ensures t in Members(sorted, key, PriorityOrder[i]) <==> t in tickets && PriorityLabel(t.priority) == PriorityOrder[i]
    {
      PriorityMember(tickets, sorted, users, PriorityOrder[i], t);
    }
  }

  lemma PriorityMember(tickets: seq<Ticket>, sorted: seq<Ticket>, users: seq<User>, k: string, t: Ticket)
    requires multiset(sorted) == multiset(tickets)
    ensures t in Members(sorted, KeyOf(ByPriority, users), k) <==> t in tickets && PriorityLabel(t.priority) == k
  {
    MembersOfSorted(tickets, sorted, KeyOf(ByPriority, users), k, t);
  }

  /** When every priority is in 0..4, the five priority columns hold every ticket once. */
  lemma PriorityBoardShowsAll(tickets: seq<Ticket>, users: seq<User>, sorting: string, collate: (string, string) -> int)
    requires forall t :: t in tickets ==> 0 <= t.priority <= 4
    ensures SumSizes(SortedTickets(tickets, sorting, collate), KeyOf(ByPriority, users), PriorityOrder) == |tickets|
  {
    var sorted := SortedTickets(tickets, sorting, collate);
    var key := KeyOf(ByPriority, users);
    assert NoDuplicates(PriorityOrder);
    SumSizesCovered(sorted, key, PriorityOrder);
    forall i | 0 <= i < |sorted| ensures key(sorted[i]) in PriorityOrder {
      assert sorted[i] in multiset(tickets);
    }
    CoveredAll(sorted, key, PriorityOrder);
  }

  /** Under status grouping a ticket is listed exactly under the heading of its status. */
  lemma StatusColumnsByStatus(tickets: seq<Ticket>, users: seq<User>, sorting: string, collate: (string, string) -> int)
    ensures var sorted := SortedTickets(tickets, sorting, collate);
            var key := KeyOf(ByStatus, users);
            forall t, k :: t in Members(sorted, key, k) <==> t in tickets && t.status == k
  {
    var sorted := SortedTickets(tickets, sorting, collate);
    var key := KeyOf(ByStatus, users);
    forall t, k ensures t in Members(sorted, key, k) <==> t in tickets && t.status == k {
      MembersOfSorted(tickets, sorted, key, k, t);
    }
  }

  /**
   * Status grouping shows every ticket: each status has a heading, and the
   * column sizes add up to the number of tickets.
   */
  lemma StatusBoardShowsAll(tickets: seq<Ticket>, users: seq<User>, sorting: string, collate: (string, string) -> int)
    ensures var sorted := SortedTickets(tickets, sorting, collate);
            var key := KeyOf(ByStatus, users);
            var columns := GroupedKeys(ByStatus, users, ListedKeys(sorted, key));
            && (forall t :: t in tickets ==> t.status in columns)
            && SumSizes(sorted, key, columns) == |tickets|
  {
    var sorted := SortedTickets(tickets, sorting, collate);
    var key := KeyOf(ByStatus, users);
    var observed := ListedKeys(sorted, key);
    var columns := GroupedKeys(ByStatus, users, observed);
    ListedKeysDistinct(sorted, key);
    StatusColumnsShape(users, observed);
    forall t | t in tickets ensures t.status in columns {
      assert t in multiset(sorted);
      MembersIff(sorted, key, t.status, t);
      ListedKeysMember(sorted, key, t.status);
    }
    forall k | k in FirstKeys(sorted, key) ensures k in columns {
      GroupsNonEmpty(sorted, key, k);
      ListedKeysMember(sorted, key, k);
    }
    GroupsCoverAll(sorted, key, columns);
  }

  /** A bucket of the sorted copy holds exactly the input tickets with that key. */
  lemma MembersOfSorted(tickets: seq<Ticket>, sorted: seq<Ticket>, key: Ticket -> string, k: string, t: Ticket)
    requires multiset(sorted) == multiset(tickets)
    ensures t in Members(sorted, key, k) <==> t in tickets && key(t) == k
  {
    MembersIff(sorted, key, k, t);
    assert t in sorted <==> t in multiset(sorted);
    assert t in tickets <==> t in multiset(tickets);
  }

  /** Under priority sorting every column lists its tickets highest priority first. */
  lemma ColumnsKeepSortOrder(tickets: seq<Ticket>, grouping: GroupingMode, users: seq<User>,
                             collate: (string, string) -> int, group: string)
    ensures var column := Members(SortedTickets(tickets, "priority", collate), KeyOf(grouping, users), group);
            forall i, j :: 0 <= i < j < |column| ==> column[i].priority >= column[j].priority
  {
    var cmp := Comparator("priority", collate);
    var sorted := SortedTickets(tickets, "priority", collate);
    SortSorted(cmp, tickets);
    MembersKeepOrder(cmp, sorted, KeyOf(grouping, users), group);
    var column := Members(sorted, KeyOf(grouping, users), group);
    assert forall i, j :: 0 <= i < j < |column| ==> cmp(column[i], column[j]) <= 0;
  }

  /**
   * The inherited names whose value is a method of no parameters, so that
   * `groupedTickets[group].length` reads 0.
   */
  predicate ZeroLength(k: string)
  {
    k in {"toString", "valueOf", "toLocaleString"}
  }

  /**
   * The rendered board. The reduce throws when a ticket's key is an inherited
   * name. Otherwise each heading of `getGroupedKeys` lists the bucket of that
   * heading (`groupedTickets[group]`), or nothing when there is no bucket. An
   * inherited heading reads a method instead: one of length 0 shows "No
   * tickets in this category"; for any other, `.map` is not a function and
   * the render throws.
   */
  method Board(tickets: seq<Ticket>, users: seq<User>, grouping: GroupingMode, sorting: string,
               collate: (string, string) -> int)
    returns (board: Outcome<seq<Column>>)
    ensures var sorted := SortedTickets(tickets, sorting, collate);
            var key := KeyOf(grouping, users);
            var headings := GroupedKeys(grouping, users, ListedKeys(sorted, key));
            && (board.Thrown? <==>
                  ThrowsOn(sorted, key) ||
                  exists i :: 0 <= i < |headings| && Inherited(headings[i]) && !ZeroLength(headings[i]))
            && (board.Returned? ==>
                  && |board.value| == |headings|
                  && forall i :: 0 <= i < |headings| ==>
                       board.value[i] == if Inherited(headings[i]) then NoTickets(headings[i])
                                         else Column(headings[i], Members(sorted, key, headings[i])))
  {
    var sorted := SortedTickets(tickets, sorting, collate);
    var key := KeyOf(grouping, users);
    var thrown, keys, groups := GroupBy(sorted, key);
    if thrown {
      return Thrown;
    }
    var headings := GroupedKeys(grouping, users, OwnKeys(keys));
    if exists i :: 0 <= i < |headings| && Inherited(headings[i]) && !ZeroLength(headings[i]) {
      return Thrown;
    }
    forall i | 0 <= i < |headings| && headings[i] !in groups
      ensures Members(sorted, key, headings[i]) == []
    {
      GroupsNonEmpty(sorted, key, headings[i]);
    }
    forall k | k in groups ensures !Inherited(k) {
      CreatedNotInherited(sorted, key, k);
    }
    var columns := seq(|headings|, i requires 0 <= i < |headings| =>
      if Inherited(headings[i]) then NoTickets(headings[i])
      else Column(headings[i], if headings[i] in groups then groups[headings[i]] else []));
    return Returned(columns);
  }

  /** Priority grouping never throws: neither the priority labels nor the headings are inherited names. */
  lemma PriorityBoardRenders(tickets: seq<Ticket>, users: seq<User>, sorting: string, collate: (string, string) -> int)
    ensures var sorted := SortedTickets(tickets, sorting, collate);
            && !ThrowsOn(sorted, KeyOf(ByPriority, users))
            && forall i :: 0 <= i < |PriorityOrder| ==> !Inherited(PriorityOrder[i])
  {
  }

  /** Status grouping throws exactly when some ticket's status is an inherited name. */
  lemma StatusBoardThrows(tickets: seq<Ticket>, users: seq<User>, sorting: string, collate: (string, string) -> int)
    ensures ThrowsOn(SortedTickets(tickets, sorting, collate), KeyOf(ByStatus, users))
            <==> exists t :: t in tickets && Inherited(t.status)
  {
    var sorted := SortedTickets(tickets, sorting, collate);
    var key := KeyOf(ByStatus, users);
    if ThrowsOn(sorted, key) {
      var i :| 0 <= i < |sorted| && Inherited(key(sorted[i]));
      assert sorted[i] in multiset(tickets);
    }
    if t :| t in tickets && Inherited(t.status) {
      assert t in multiset(sorted);
      var i :| 0 <= i < |sorted| && sorted[i] == t;
    }
  }

  // ---------------------------------------------------------------------------
  // Card titles

  /** A card shows at most 50 characters of the title, then "...". */
  function DisplayTitle(title: string): (shown: string)
    ensures |shown| <= 53
    ensures |title| <= 50 ==> shown == title
    ensures |title| > 50 ==> |shown| == 53 && shown[..50] == title[..50] && shown[50..] == "..."
  {
    if |title| > 50 then title[..50] + "..." else title
  }

  /** Shortening a shortened title changes nothing. */
  lemma DisplayTitleIdempotent(title: string)
    ensures DisplayTitle(DisplayTitle(title)) == DisplayTitle(title)
  {
    var shown := DisplayTitle(title);
    if |title| > 50 {
      assert shown[..50] + "..." == shown;
    }
  }

  // ---------------------------------------------------------------------------
  // Preferences

  /** `localStorage.getItem(name) || fallback`: a missing or empty stored value falls back. */
  function Setting(store: map<string, string>, name: string, fallback: string): (value: string)
    ensures name in store && store[name] != "" ==> value == store[name]
    ensures (name !in store || store[name] == "") ==> value == fallback
  {
    if name in store && store[name] != "" then store[name] else fallback
  }

  function InitialGrouping(store: map<string, string>): string
  {
    Setting(store, "grouping", "status")
  }

  function InitialSorting(store: map<string, string>): string
  {
    Setting(store, "sorting", "priority")
  }

  /**
   * Saving both settings and starting again restores them; with nothing
   * stored the board starts grouped by status and sorted by priority.
   */
  lemma SettingsRestored(store: map<string, string>, grouping: string, sorting: string)
    requires grouping != "" && sorting != ""
    ensures var saved := store["grouping" := grouping]["sorting" := sorting];
            InitialGrouping(saved) == grouping && InitialSorting(saved) == sorting
    ensures InitialGrouping(map[]) == "status" && InitialSorting(map[]) == "priority"
  {
  }

  // ---------------------------------------------------------------------------
  // Column header icons under priority grouping

  /** `priorityImages[priority]`, absent for unmapped priorities. */
  function PriorityImage(priority: int): Option<string>
  {
    match priority
    case 0 => Some("/images/No-priority.png")
    case 1 => Some("/images/Low.png")
    case 2 => Some("/images/Medium.png")
    case 3 => Some("/images/high.png")
    case 4 => Some("/images/UrgentOrange.png")
    case _ => None
  }

  /** `Array.prototype.indexOf`: the first position of `x`, or -1. */
  function IndexOf(s: seq<string>, x: string): (i: int)
    ensures -1 <= i < |s|
    ensures 0 <= i ==> s[i] == x && forall j :: 0 <= j < i ==> s[j] != x
    ensures i == -1 ==> x !in s
  {
    if s == [] then -1
    else if s[0] == x then 0
    else
      var i := IndexOf(s[1..], x);
      assert forall j :: 1 <= j < |s| ==> s[j] == s[1..][j - 1];
      if i == -1 then -1 else i + 1
  }

  /** The header icon as the source looks it up: by the heading's position in `priorityOrder`. */
  function HeaderIconAsWritten(group: string): Option<string>
  {
    PriorityImage(IndexOf(PriorityOrder, group))
  }

  /** The "Urgent" column gets the Low icon, while an urgent ticket's own icon is the urgent one. */
  lemma UrgentHeaderShowsLowIcon()
    ensures HeaderIconAsWritten("Urgent") == Some("/images/Low.png")
    ensures PriorityImage(4) == Some("/images/UrgentOrange.png")
  {
    assert PriorityOrder[1] == "Urgent" && PriorityOrder[0] != "Urgent";
  }

  /** The header icon looked up by the priority the heading stands for. */
  function HeaderIcon(group: string): Option<string>
  {
    match PriorityOf(group)
    case Some(p) => PriorityImage(p)
    case None => None
  }

  /** Corrected: every priority column shows the icon of its own priority. */
  lemma HeaderIconMatchesPriority(priority: int)
    requires 0 <= priority <= 4
    ensures HeaderIcon(PriorityLabel(priority)) == PriorityImage(priority)
    ensures HeaderIcon(PriorityLabel(priority)).Some?
  {
    PriorityLabelRoundTrip(priority, PriorityLabel(priority));
  }
}
