# Kanban board grouping and sorting, in Dafny

This project models the ticket pipeline of a React kanban board (Jagg2611/quicksell). The pipeline sits between the remote ticket feed and the rendered columns. It exists in two independent versions, and both are modelled.

- **The `App` engine** (`src/App.js`), module `App`:
  - resolves user names, with the fallback "Unknown User";
  - sorts a copy of the ticket list, by descending priority, by title, or not at all;
  - buckets the sorted copy by status, user name or priority label;
  - chooses the column headings with `getGroupedKeys`;
  - shortens long card titles;
  - restores the two saved preferences.
- **`processTickets`** (`src/KanbanBoard.js`), module `KanbanBoard`:
  - buckets tickets by the field named by `grouping`, falling back to "Unassigned";
  - lists the buckets in `Object.keys` order;
  - sorts each bucket in place, by ascending priority.

Three shared modules support them:

- `Tickets` holds the ticket and user records.
- `StableSort` models `Array.prototype.sort`.
  - The language standard requires this sort to be stable (section 22.1.3.27 of ECMA-262, 2019 edition).
  - It is modelled as a stable insertion sort over a comparator `(T, T) -> int`.
  - `SortInPlace` runs the same sort in place on an `array`.
- `Grouping` models the `reduce` both files use to build a key-to-list dictionary.
  - The dictionary starts as a plain `{}`, so a key such as "constructor" or "toString" reads a member inherited from `Object.prototype`. For such a key the reduce throws a TypeError, and the model returns that outcome (`Outcome.Thrown`).
  - It also models `Object.keys` on the result.
  - Array-index keys come first, in ascending numeric order (section 10.1.11.1 of ECMA-262, 2022 edition).
  - All other keys follow in creation order.
  - The dictionary is an insertion-ordered key list plus a `map`.

Each operation is specified by functions on sequences:

- `Sort` is the specification of the sort.
- `Members` is the specification of one bucket.
- `FirstKeys` gives the keys in first-occurrence order.
- `OwnKeys` gives the `Object.keys` order.

The methods (`GroupBy`, `SortInPlace`, `Board`, `ProcessTickets`) are proved to compute exactly these. Lemmas then prove what the source promises about them:

- permutation, order and stability of the sort;
- the partition properties of the buckets;
- the shape of the column lists;
- the lookup tables.

A JavaScript `localeCompare` is not visible here, so title sorting takes the collation as a parameter `collate`. Title order is proved only for a `collate` that is a total preorder (`StableSort.Collation`).

## Model

| member | source | states |
|---|---|---|
| App.UserName | src/App.js:60-63 | the name of the first user whose id matches; "Unknown User" when no user matches |
| App.PriorityLabel | src/App.js:84-102 | the label is one of the five column headings exactly for priorities 0..4; any other priority gives "Unknown Priority" |
| App.PriorityLabelRoundTrip | src/App.js:84-102 | the label table is one-to-one on 0..4: reading a heading back gives its priority, and only the five headings stand for a priority |
| App.Comparator | src/App.js:66-74 | the comparator: `b.priority - a.priority` for "priority", the collation of the titles for "title", 0 otherwise; `SortByPriority`, `SortByTitle` and `SortOtherKeepsOrder` state what sorting with it gives |
| App.SortedTickets | src/App.js:66-74 | the sorted copy is a permutation of the tickets |
| App.PriorityTies | src/App.js:67-68 | under the priority comparator, the tickets tied with a pivot are exactly those of the pivot's priority |
| App.SortByPriority | src/App.js:66-69 | sorting by "priority" gives a permutation in non-increasing priority; the tickets of each priority keep their input order |
| App.SortByTitle | src/App.js:70-72 | for a consistent collation, sorting by "title" gives a permutation in collation order; titles that collate equal keep their input order |
| App.SortOtherKeepsOrder | src/App.js:73 | any other sorting value leaves the list unchanged |
| App.GroupKey | src/App.js:78-103 | the key of a ticket: its status, its user's name, or its priority label; `StatusColumnsByStatus`, `PriorityMember` and `MembersOfSorted` state the buckets it gives |
| App.Extras | src/App.js:146-151 | the observed keys that are not one of the five statuses, in order, never more than were observed; `ExtrasMembers`, `ExtrasDistinct` and `ExtrasKeepOrder` state what it keeps |
| App.GroupedKeys | src/App.js:134-153 | user grouping gives min(5, number of users) headings, the names of the first users in order; status grouping starts with the five canonical statuses; priority grouping gives exactly the five priority headings |
| App.ExtrasMembers | src/App.js:146-151 | a key survives the filter exactly when it was observed and is not one of the five statuses |
| App.ExtrasDistinct | src/App.js:146-151 | filtering distinct keys leaves distinct keys |
| App.ExtrasKeepOrder | src/App.js:146-151 | the filter keeps the relative order of the observed keys |
| App.StatusColumnsShape | src/App.js:140-152 | status headings: the five statuses in order, then the other observed keys; no heading twice; a heading is a status or an observed key |
| App.StatusColumnsFirstObserved | src/App.js:146-151 | when no status is an array index, the extra status headings come in the order their status first occurs in the sorted list |
| App.UserColumns | src/App.js:136 | with distinct user ids, the user headings are the names of the first five users |
| App.PriorityColumns | src/App.js:84-113 | a ticket is listed under a priority heading exactly when its priority's label is that heading, so a ticket outside 0..4 is listed under none |
| App.PriorityMember | src/App.js:77-102 | for any permutation of the tickets, the bucket of a label holds exactly the tickets with that priority label |
| App.PriorityBoardShowsAll | src/App.js:134-139 | when every priority is in 0..4, the five priority columns together hold every ticket once |
| App.StatusColumnsByStatus | src/App.js:77-80 | under status grouping, the bucket of a heading holds exactly the tickets with that status |
| App.StatusBoardShowsAll | src/App.js:140-152 | under status grouping every ticket's status has a heading, and the column sizes add up to the number of tickets |
| App.MembersOfSorted | src/App.js:77-110 | a bucket of the sorted copy holds exactly the input tickets with that key |
| App.ColumnsKeepSortOrder | src/App.js:66-110 | under priority sorting every column lists its tickets in non-increasing priority, whatever the grouping |
| App.Board | src/App.js:204-239 | the render throws exactly when some ticket's key is an inherited name or a heading is an inherited name other than "toString", "valueOf" and "toLocaleString"; otherwise one column per heading of `getGroupedKeys`: "No tickets in this category" for those three names, else the bucket of the heading (none when there is no bucket) |
| App.PriorityBoardRenders | src/App.js:84-113 | under priority grouping neither a ticket's key nor a heading is an inherited name, so nothing throws |
| App.StatusBoardThrows | src/App.js:77-80 | under status grouping the reduce throws exactly when some ticket's status is an inherited name |
| App.DisplayTitle | src/App.js:256-258 | a title of at most 50 characters is shown unchanged; a longer one shows its first 50 characters and "...", 53 in all |
| App.DisplayTitleIdempotent | src/App.js:256-258 | shortening an already shortened title changes nothing |
| App.Setting | src/App.js:16-21 | a stored non-empty value is used; a missing or empty one falls back to the default |
| App.SettingsRestored | src/App.js:16-21 | saved grouping and sorting are restored on the next start; with nothing stored the board starts with "status" and "priority" |
| App.InitialGrouping | src/App.js:16-18 | the grouping at start: the stored "grouping", or "status"; `SettingsRestored` states both cases |
| App.InitialSorting | src/App.js:19-21 | the sorting at start: the stored "sorting", or "priority"; `SettingsRestored` states both cases |
| App.PriorityImage | src/App.js:116-122 | the image of each priority 0..4, and none for any other value |
| App.IndexOf | src/App.js:210 | `indexOf` gives the first position of the value, or -1 when it is absent |
| App.HeaderIconAsWritten | src/App.js:210 | the header icon looked up by the heading's position in `priorityOrder`; `UrgentHeaderShowsLowIcon` exhibits the mismatch |
| App.ZeroLength | src/App.js:235 | the inherited names whose method has `length` 0; `Board` shows "No tickets in this category" for them |
| App.UrgentHeaderShowsLowIcon | src/App.js:210 | the "Urgent" heading is given the Low icon, while priority 4 maps to the urgent icon |
| App.HeaderIconMatchesPriority | src/App.js:116-122 | looked up by the priority the heading stands for, every priority heading shows its own priority's icon |
| StableSort.InsertRight | src/App.js:66-74 | one insertion step: puts an element behind the last element not greater than it, one longer; `InsertRightPermutes`, `InsertRightSorted` and `InsertRightTies` state what it keeps |
| StableSort.Sort | src/App.js:66-74 | `Array.prototype.sort` with a comparator, as stable insertion sort, of the same length; `SortPermutes`, `SortSorted` and `SortStable` state that it is a sorted, stable permutation |
| StableSort.InsertPos | src/App.js:66-74 | the insertion point lies behind an element that is not greater than the inserted one |
| StableSort.InsertPosPassesGreater | src/App.js:66-74 | every element behind the insertion point is strictly greater than the inserted one |
| StableSort.InsertRightPermutes | src/KanbanBoard.js:23-30 | inserting adds exactly the one element |
| StableSort.SortPermutes | src/KanbanBoard.js:23-30 | the sort only reorders: the result is a permutation of the input |
| StableSort.InsertRightSorted | src/App.js:66-74 | inserting into a sorted sequence keeps it sorted |
| StableSort.InsertedPairOrdered | src/App.js:66-74 | any two positions of the spliced sequence are in order |
| StableSort.SortSorted | src/App.js:66-74 | for a consistent comparator, the result is sorted |
| StableSort.TiesAppend | src/App.js:66-74 | the elements tied with a pivot grow by the appended element when it ties |
| StableSort.InsertRightTies | src/App.js:66-74 | insertion keeps the relative order of the elements tied with any pivot |
| StableSort.SortStable | src/KanbanBoard.js:23-30 | stability: elements that compare equal keep their relative input order |
| StableSort.SortOfSorted | src/KanbanBoard.js:23-30 | an input that is already in order is left unchanged |
| StableSort.AllTiedKeepsOrder | src/KanbanBoard.js:29 | a comparator that always answers 0 leaves the order unchanged |
| StableSort.SortIdempotent | src/App.js:66-74 | sorting twice is sorting once |
| StableSort.SortInPlace | src/KanbanBoard.js:23 | the in-place sort leaves the array holding the stable sort of its old contents |
| StableSort.SinkLast | src/KanbanBoard.js:23 | one insertion step moves the next element left past strictly greater ones, and leaves the rest untouched |
| StableSort.InsertRightSplit | src/App.js:66-74 | the inserted element lands at the first position behind which everything is strictly greater |
| StableSort.SpliceAt | src/KanbanBoard.js:23 | the array contents after a step are the prefix, the element and the suffix |
| Grouping.Members | src/App.js:105-108 | the list the reduce builds for key k: the elements with key k, in order, never longer than the input; `MembersIff`, `MembersCount` and `MembersKeepOrder` state it |
| Grouping.FirstKeys | src/App.js:105-107 | the keys the reduce creates, in creation order; `FirstKeysOrdered` states they are distinct, exactly the occurring keys, in first-occurrence order |
| Grouping.Inherited | src/App.js:105 | the names a plain `{}` inherits from `Object.prototype`, for which `!acc[key]` is false |
| Grouping.ThrowsOn | src/App.js:105-108 | some element's key is inherited, so `acc[key].push` is not a function; `GroupBy` throws exactly then |
| Grouping.FirstIndex | src/App.js:105-108 | the first position whose key is the given key, or the length when there is none |
| Grouping.MembersAppend | src/App.js:105-108 | pushing an element extends exactly the group of its own key |
| Grouping.MembersCount | src/KanbanBoard.js:10-17 | partition: each occurrence lands in the group of its key and in no other group |
| Grouping.MembersIff | src/App.js:105-108 | an element is in group k exactly when it is in the list and its key is k |
| Grouping.MembersKeepOrder | src/App.js:77-110 | each group keeps the order of the list it was built from |
| Grouping.FirstIndexAppend | src/App.js:105-108 | how appending an element moves the first position of a key |
| Grouping.FirstKeysOrdered | src/KanbanBoard.js:10-17 | the created keys are distinct, are exactly the keys that occur, and are ordered by first occurrence |
| Grouping.GroupsNonEmpty | src/App.js:105-108 | no group is created empty, and every occurring key has a group |
| Grouping.SumSizesAppend | src/App.js:105-108 | over distinct keys, appending an element adds one to the total group size exactly when its key is among them |
| Grouping.SumSizesCovered | src/App.js:77-110 | over distinct keys, the group sizes add up to the number of elements those keys cover |
| Grouping.EmptyGroups | src/App.js:77-110 | the empty list has empty groups |
| Grouping.CoveredAll | src/App.js:77-110 | when every key is among the headings, all elements are covered |
| Grouping.GroupsCoverAll | src/App.js:77-110 | distinct headings that include every created key hold every element exactly once in all |
| Grouping.GroupSizesSum | src/KanbanBoard.js:10-17 | the groups of the reduce hold, together, exactly as many elements as the list |
| Grouping.IsIndexKey | src/KanbanBoard.js:20 | a canonical array index: a decimal numeral without leading zero below 2^32-1 |
| Grouping.OwnKeys | src/KanbanBoard.js:20 | `Object.keys` of the created keys, as many as were created: the array indices ascending, then the others in creation order; `OwnKeysPermutes`, `OwnKeysMembers` and `OwnKeysOrder` state it |
| Grouping.ListedKeys | src/KanbanBoard.js:20 | `Object.keys` of the object the reduce built; `ListedKeysDistinct`, `ListedKeysMember` and `ListedInCreationOrder` state it |
| Grouping.SplitKeysPermutes | src/KanbanBoard.js:20 | splitting keys into array indices and other keys loses and adds none |
| Grouping.IndexKeysAreIndices | src/KanbanBoard.js:20 | the index part holds only array indices |
| Grouping.NamedKeysAreNamed | src/KanbanBoard.js:20 | the other part holds no array index |
| Grouping.OwnKeysPermutes | src/KanbanBoard.js:20 | `Object.keys` lists each created key exactly as often as it was created |
| Grouping.NamedKeysAppend | src/KanbanBoard.js:20 | the non-index keys of a concatenation are those of its parts |
| Grouping.NamedKeysOfIndices | src/KanbanBoard.js:20 | a list of array indices has no other keys |
| Grouping.NamedKeysOfNamed | src/KanbanBoard.js:20 | a list without array indices is its own non-index part |
| Grouping.OwnKeysOrder | src/KanbanBoard.js:20 | `Object.keys` puts every array index before every other key, ascending; the other keys keep creation order |
| Grouping.SortedIndices | src/KanbanBoard.js:20 | the sorted index part holds array indices in ascending numeric order |
| Grouping.OwnKeysMembers | src/KanbanBoard.js:20 | `Object.keys` lists exactly the created keys |
| Grouping.OwnKeysDistinct | src/KanbanBoard.js:20 | `Object.keys` of distinct created keys lists each once |
| Grouping.OwnKeysPair | src/KanbanBoard.js:20 | a key listed before an array index is itself an array index with no larger value |
| Grouping.ListedKeysDistinct | src/KanbanBoard.js:20-22 | one output entry per distinct key: the listed keys have no duplicates |
| Grouping.ListedKeysMember | src/KanbanBoard.js:20-22 | a key is listed exactly when its group is non-empty |
| Grouping.ListedGroupSizesSum | src/KanbanBoard.js:10-22 | the listed groups hold, together, exactly as many elements as the list |
| Grouping.ListedInCreationOrder | src/App.js:146 | when no key is an array index, the keys are listed in first-occurrence order |
| Grouping.NoIndexKeys | src/KanbanBoard.js:20 | a list without array indices has an empty index part |
| Grouping.GroupBy | src/App.js:77-110 | the reduce throws exactly when some element's key is an inherited name; otherwise its loop builds exactly the keys in first-occurrence order and, for each key, exactly its group |
| Grouping.CreatedNotInherited | src/App.js:105-108 | when the reduce does not throw, none of the keys it created is an inherited name |
| Grouping.NoThrowExtends | src/App.js:105-108 | an element whose key is not inherited does not make the reduce throw |
| Grouping.FirstKeysPush | src/App.js:105-107 | pushing an element creates its key exactly when the key is new |
| Grouping.MembersPush | src/App.js:108 | pushing an element extends exactly the list of its own key |
| KanbanBoard.Field | src/KanbanBoard.js:11 | reading a field name: undefined exactly for names that are not ticket fields; a number exactly for "priority" |
| KanbanBoard.Truthy | src/KanbanBoard.js:11 | JavaScript truthiness of a field value: undefined, "" and 0 are falsy |
| KanbanBoard.PropertyKey | src/KanbanBoard.js:11-12 | the property key a truthy value becomes: the string itself, or `String(n)` for a number |
| KanbanBoard.BoardKey | src/KanbanBoard.js:11 | `ticket[grouping] \|\| "Unassigned"`; `PriorityKey`, `PriorityIndexKey` and `UnknownFieldOneBucket` state the keys it gives |
| KanbanBoard.Numeral | src/KanbanBoard.js:11 | the decimal numeral is non-empty, all digits, and has no leading zero |
| KanbanBoard.NumeralValue | src/KanbanBoard.js:11 | a numeral denotes the number it was written for |
| KanbanBoard.Decimal | src/KanbanBoard.js:11 | a priority's key starts with "-" exactly for negative priorities, and otherwise with a digit |
| KanbanBoard.NumeralInjective | src/KanbanBoard.js:11 | distinct numbers have distinct numerals |
| KanbanBoard.DecimalInjective | src/KanbanBoard.js:11 | distinct priorities give distinct keys |
| KanbanBoard.Comparator | src/KanbanBoard.js:23-30 | the per-bucket comparator: `a.priority - b.priority` for "priority", 0 for "dueDate" (NaN read as 0) and for anything else; `BucketByPriority` and `BucketKeepsOrder` state what sorting with it gives |
| KanbanBoard.SortedBucket | src/KanbanBoard.js:23-30 | the bucket of key k sorted by the comparator; `BucketsPartition` states the buckets partition the tickets |
| KanbanBoard.ProcessTickets | src/KanbanBoard.js:8-35 | throws exactly when some ticket's key is an inherited name; otherwise one group per listed key, in `Object.keys` order, each holding that key's tickets sorted by the comparator |
| KanbanBoard.GroupsAt | src/KanbanBoard.js:20-32 | entry i of the groups is key i with its sorted bucket |
| KanbanBoard.SortEachGroups | src/KanbanBoard.js:20-32 | sorting each bucket the reduce built gives the groups of the keys |
| KanbanBoard.GroupAndSort | src/KanbanBoard.js:10-32 | throws exactly when the reduce does; otherwise the reduce followed by the per-bucket sort produces exactly the groups of the listed keys |
| KanbanBoard.SortBuckets | src/KanbanBoard.js:20-32 | the `map` over the listed keys sorts each key's bucket and pairs it with its key |
| KanbanBoard.PriorityGroupingNeverThrows | src/KanbanBoard.js:10-17 | under priority grouping the keys are "Unassigned" and numerals, so the reduce never throws |
| KanbanBoard.ListedBuckets | src/KanbanBoard.js:20-23 | every key `Object.keys` lists names a bucket of the reduce, and that bucket holds exactly the key's tickets |
| KanbanBoard.SortBucket | src/KanbanBoard.js:23 | the bucket's array sorted in place holds the stable sort of the bucket |
| KanbanBoard.BucketsPartition | src/KanbanBoard.js:10-22 | headings distinct; a group is non-empty exactly when its key is listed; each ticket occurrence is in the group of its key and no other; group sizes add up to the number of tickets |
| KanbanBoard.PriorityTies | src/KanbanBoard.js:24-25 | under the priority comparator, tickets tie exactly when their priorities are equal |
| KanbanBoard.BucketByPriority | src/KanbanBoard.js:24-25 | sorting by "priority" puts each group in non-decreasing priority, and each priority's tickets keep their order |
| KanbanBoard.BucketKeepsOrder | src/KanbanBoard.js:26-29 | any other sorting value, "dueDate" included, leaves each group in input order |
| KanbanBoard.PriorityKey | src/KanbanBoard.js:11 | under priority grouping a ticket goes to "Unassigned" exactly when its priority is 0, and to a nonzero priority's key exactly when it has that priority |
| KanbanBoard.PriorityBucket | src/KanbanBoard.js:10-17 | under priority grouping, the bucket of a nonzero priority holds exactly the tickets of that priority |
| KanbanBoard.UnknownFieldOneBucket | src/KanbanBoard.js:11 | a grouping that names no ticket field puts every ticket into the single bucket "Unassigned", in input order |
| KanbanBoard.PriorityColumnsAscend | src/KanbanBoard.js:20 | under priority grouping, any column listed before the column of a priority in 1..2^32-2 is the column of a smaller positive priority: positive priorities come first, ascending, ahead of "Unassigned" and negative ones |
| KanbanBoard.PriorityIndexKey | src/KanbanBoard.js:11 | a priority's key is an array index exactly for priorities 1 to 2^32-2, and then denotes that priority |

## Left out

- Rendering is left out: JSX, CSS, icons, and the Done/Cancelled header buttons. The one exception is the header-icon lookup under "## Findings".
- The remote fetch, its JSON decoding and its error logging are I/O. `tickets` and `users` are parameters.
- `localStorage` reads and writes and the React state and effect plumbing are left out. Only the default rule is modelled, over a `map` standing for the store.
- `localeCompare` is ICU collation. It is the parameter `collate`, and title order is proved only when `collate` is a total preorder.
- The "dueDate" comparator is modelled as always 0. Tickets carry no `dueDate`, so both `Date`s are invalid and their difference is NaN. The sort treats a NaN comparison as +0. Date arithmetic and floating point are not modelled.
- App grouping modes other than "status", "user" and "priority" are not modelled. They would put every ticket under the key "undefined".
- KanbanBoard.Field: only the six fields of the ticket record are visible. Names inherited from `Object.prototype`, such as "constructor", would read a truthy function, and are not modelled.
- KanbanBoard.Decimal: `String(n)` is modelled for integers only. Exponent notation (from 10^21 on) and precision loss beyond 2^53 are not modelled.
- App.StatusColumnsFirstObserved requires that no status is an array index. For such statuses `Object.keys` lists them first, in ascending order, and `OwnKeys` models that order.
- Strings are sequences of `char`. UTF-16 code units and surrogate pairs are not distinguished.
- The "No tickets in this category" branch of the render (src/App.js:235-236) is never reached by a bucket, because no bucket is created empty (`Grouping.GroupsNonEmpty`). It is reached only by a heading "toString", "valueOf" or "toLocaleString" under user grouping, whose inherited method has `length` 0; `App.Board` models that.
- App.Board: the count beside each heading is not modelled. For an inherited heading it is the method's arity.
- src/Dropdown.js and src/Navbar.js are UI wiring. The "assignee" grouping Dropdown.js offers is not a ticket field, so `KanbanBoard.UnknownFieldOneBucket` covers it. The `Ticket` card component is not part of this model.

## Findings

| source | as written | input that shows it | evidently intended | confidence | as-written member | corrected member |
|---|---|---|---|---|---|---|
| src/App.js:210 | the priority column icon is `priorityImages[priorityOrder.indexOf(group)]`, looked up by the heading's position in `priorityOrder` | grouping "priority", heading "Urgent": position 1, so the icon is `/images/Low.png`; "High" gets Medium's and "Low" gets Urgent's | the icon of the priority the heading stands for (Urgent: `/images/UrgentOrange.png`), as the cards use at src/App.js:265 | high; not executed | App.UrgentHeaderShowsLowIcon | App.HeaderIconMatchesPriority |
