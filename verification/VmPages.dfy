/** Sorting and paging of the VM list (internal/store/vm.go WithSort, WithLimit, WithOffset; internal/handlers/v1/vms.go). */
module VmPages {
  import opened Wrappers
  import opened FilterSql
  import opened Tables
  import opened GroupMatches

  datatype SortParam = SortParam(field: string, desc: bool)

  datatype Key = Key(column: string, desc: bool, nullsLast: bool)

  function ColumnOf(field: string): Option<string>
  {
    match field
    case "name" => Some("name")
    case "vCenterState" => Some("power_state")
    case "cluster" => Some("cluster")
    case "diskSize" => Some("disk_size")
    case "memory" => Some("memory")
    case "issues" => Some("issue_count")
    case "cpuUsage" => Some("cpu_max_pct")
    case "ramUsage" => Some("mem_max_pct")
    case "diskUsage" => Some("disk_pct")
    case "cpuAvg" => Some("cpu_avg_pct")
    case "memAvg" => Some("mem_avg_pct")
    case _ => None
  }

  const NULLABLE := {"cpu_max_pct", "mem_max_pct", "disk_pct", "cpu_avg_pct", "mem_avg_pct"}

  /** Where the database puts NULLs in a column that says nothing about them, for each direction. */
  type NullOrder = bool -> bool

  function KeyOf(p: SortParam, nulls: NullOrder): Option<Key>
  {
    var c := ColumnOf(p.field);
    if c.None? then None else Some(Key(c.value, p.desc, c.value in NULLABLE || nulls(p.desc)))
  }

  /** The clauses before the final id. */
  function OrderBy(sorts: seq<SortParam>, nulls: NullOrder): seq<Key>
  {
    if sorts == [] then []
    else
      var n := |sorts| - 1;
      var k := KeyOf(sorts[n], nulls);
      if k.None? then OrderBy(sorts[..n], nulls) else OrderBy(sorts[..n], nulls) + [k.value]
  }

  method WithSort(sorts: seq<SortParam>, nulls: NullOrder) returns (keys: seq<Key>)
    ensures keys == OrderBy(sorts, nulls)
    ensures forall k :: k in keys && k.column in NULLABLE ==> k.nullsLast
  {
    keys := [];
    var i := 0;
    while i < |sorts|
      invariant i <= |sorts| && keys == OrderBy(sorts[..i], nulls)
      invariant forall k :: k in keys && k.column in NULLABLE ==> k.nullsLast
    {
      hide ColumnOf;
      assert sorts[..i + 1][..i] == sorts[..i];
      var s := sorts[i];
      i := i + 1;
      var col := ColumnOf(s.field);
      if col.None? {
        continue;
      }
      keys := keys + [Key(col.value, s.desc, col.value in NULLABLE || nulls(s.desc))];
    }
    assert sorts[..i] == sorts;
  }

  lemma {:induction false} OrderByAppend(a: seq<SortParam>, b: seq<SortParam>, nulls: NullOrder)
    ensures OrderBy(a + b, nulls) == OrderBy(a, nulls) + OrderBy(b, nulls)
    decreases |b|
  {
    hide KeyOf;
    if b == [] {
      assert a + b == a;
    } else {
      var n := |b| - 1;
      assert (a + b)[..|a + b| - 1] == a + b[..n];
      OrderByAppend(a, b[..n], nulls);
    }
  }

  /** Each known field adds its column with the direction asked for, in order; an unknown one adds nothing. */
  lemma OrderByOne(p: SortParam, nulls: NullOrder)
    ensures OrderBy([p], nulls) ==
            if ColumnOf(p.field).None? then []
            else [Key(ColumnOf(p.field).value, p.desc, ColumnOf(p.field).value in NULLABLE || nulls(p.desc))]
  {
    hide ColumnOf;
    assert [p][..0] == [];
  }

  /** The columns of the list query, and those of the utilization joined to it. */
  const LISTED := {"id", "name", "power_state", "cluster", "datacenter", "memory", "disk_size", "issue_count", "status",
                   "details", "template", "migratable", "error", "inspection_concern_count", "groups",
                   "migration_excluded", "labels"}
  const UTILIZATION := {"cpu_avg_pct", "cpu_p95_pct", "cpu_max_pct", "cpu_latest_pct",
                        "mem_avg_pct", "mem_p95_pct", "mem_max_pct", "mem_latest_pct", "disk_pct", "confidence_pct"}

  /** Every sort field names a column the query has; it is nullable exactly if it comes from the utilization. */
  lemma SortColumnsExist(f: string)
    requires ColumnOf(f).Some?
    ensures ColumnOf(f).value in LISTED || ColumnOf(f).value in UTILIZATION
    ensures ColumnOf(f).value in NULLABLE <==> ColumnOf(f).value in UTILIZATION
  {
  }

  /** The fields of the API name different columns, and the nullable ones are the five of the utilization. */
  lemma ColumnsAreDistinct(f: string, g: string)
    requires ColumnOf(f).Some? && ColumnOf(f) == ColumnOf(g)
    ensures f == g
    ensures ColumnOf(f).value in NULLABLE <==> f in {"cpuUsage", "ramUsage", "diskUsage", "cpuAvg", "memAvg"}
  {
  }

  // ----- the order of rows -----

  /** How the database orders values that are not NULL. */
  type Less = (Value, Value) -> bool

  ghost predicate StrictTotal(less: Less)
  {
    && (forall x :: !less(x, x))
    && (forall x, y, z :: less(x, y) && less(y, z) ==> less(x, z))
    && (forall x: Value, y: Value :: !x.NullV? && !y.NullV? && x != y ==> less(x, y) || less(y, x))
  }

  predicate KeyLess(less: Less, k: Key, x: Value, y: Value)
  {
    if x.NullV? then !y.NullV? && !k.nullsLast
    else if y.NullV? then k.nullsLast
    else if k.desc then less(y, x)
    else less(x, y)
  }

  lemma KeyOrder(less: Less, k: Key, x: Value, y: Value, z: Value)
    requires StrictTotal(less)
    ensures !KeyLess(less, k, x, x)
    ensures KeyLess(less, k, x, y) && KeyLess(less, k, y, z) ==> KeyLess(less, k, x, z)
    ensures KeyLess(less, k, x, y) ==> !KeyLess(less, k, y, x)
    ensures x == y || KeyLess(less, k, x, y) || KeyLess(less, k, y, x)
  {
  }

  /** The output row of a VM. */
  type Cells = (string, string) -> Value

  /** ORDER BY keys, id */
  predicate Before(less: Less, keys: seq<Key>, cells: Cells, a: string, b: string)
    decreases |keys|
  {
    if keys == [] then less(TextV(a), TextV(b))
    else
      var x, y := cells(a, keys[0].column), cells(b, keys[0].column);
      || KeyLess(less, keys[0], x, y)
      || (!KeyLess(less, keys[0], y, x) && Before(less, keys[1..], cells, a, b))
  }

  /** Whatever the sort list and the directions, and wherever NULLs go, the order of rows is strict and total. */
  lemma {:induction false} BeforeIsStrictTotal(less: Less, keys: seq<Key>, cells: Cells, a: string, b: string, c: string)
    requires StrictTotal(less)
    ensures !Before(less, keys, cells, a, a)
    ensures Before(less, keys, cells, a, b) && Before(less, keys, cells, b, c) ==> Before(less, keys, cells, a, c)
    ensures Before(less, keys, cells, a, b) ==> !Before(less, keys, cells, b, a)
    ensures a == b || Before(less, keys, cells, a, b) || Before(less, keys, cells, b, a)
    decreases |keys|
  {
    if keys != [] {
      hide StrictTotal, KeyLess;
      var k := keys[0];
      var x, y, z := cells(a, k.column), cells(b, k.column), cells(c, k.column);
      KeyOrder(less, k, x, y, z);
      KeyOrder(less, k, x, z, y);
      KeyOrder(less, k, y, z, x);
      KeyOrder(less, k, y, x, z);
      BeforeIsStrictTotal(less, keys[1..], cells, a, b, c);
    }
  }

  ghost predicate Sorted(less: Less, keys: seq<Key>, cells: Cells, s: seq<string>)
  {
    forall i, j :: 0 <= i < j < |s| ==> Before(less, keys, cells, s[i], s[j])
  }

  /** There is only one way to sort. */
  lemma SortedIsUnique(less: Less, keys: seq<Key>, cells: Cells, s: seq<string>, t: seq<string>)
    requires StrictTotal(less) && Sorted(less, keys, cells, s) && Sorted(less, keys, cells, t)
    requires multiset(s) == multiset(t)
    ensures s == t
  {
    hide StrictTotal, Before;
    var before := (a: string, b: string) => Before(less, keys, cells, a, b);
    forall a, b
      ensures !(before(a, b) && before(b, a))
    {
      BeforeIsStrictTotal(less, keys, cells, a, b, a);
    }
    OrderedIsUnique(before, s, t);
  }

  /** What ORDER BY promises of two rows, the first before the second: at the first column where they differ, if the
      cells are there the first is less in an ascending column and greater in a descending one; if one is NULL it is the
      second where NULLs go last and the first where they go first; and if no column differs, the identifiers ascend. */
  ghost predicate InOrder(less: Less, keys: seq<Key>, cells: Cells, a: string, b: string, d: nat)
  {
    && d <= |keys|
    && (forall i :: 0 <= i < d ==> cells(a, keys[i].column) == cells(b, keys[i].column))
    && (if d == |keys| then less(TextV(a), TextV(b))
        else
          var x, y := cells(a, keys[d].column), cells(b, keys[d].column);
          && x != y
          && (if x != NullV && y != NullV then (if keys[d].desc then less(y, x) else less(x, y))
              else if keys[d].nullsLast then y == NullV
              else x == NullV))
  }

  lemma {:induction false} BeforeMeans(less: Less, keys: seq<Key>, cells: Cells, a: string, b: string) returns (d: nat)
    requires StrictTotal(less) && Before(less, keys, cells, a, b)
    ensures InOrder(less, keys, cells, a, b, d)
    decreases |keys|
  {
    if keys == [] {
      d := 0;
    } else {
      var x, y := cells(a, keys[0].column), cells(b, keys[0].column);
      if x != y {
        d := 0;
      } else {
        var e := BeforeMeans(less, keys[1..], cells, a, b);
        d := e + 1;
        assert forall i :: 0 < i < |keys| ==> keys[i] == keys[1..][i - 1];
      }
    }
  }

  /** In a sorted list every earlier row is before every later one as the sort list asks; in the utilization columns
      NULLs come last whatever the direction. */
  lemma SortedMeans(less: Less, sorts: seq<SortParam>, nulls: NullOrder, cells: Cells, s: seq<string>, i: nat, j: nat)
    returns (d: nat)
    requires StrictTotal(less) && Sorted(less, OrderBy(sorts, nulls), cells, s) && i < j < |s|
    ensures var keys := OrderBy(sorts, nulls);
            && InOrder(less, keys, cells, s[i], s[j], d)
            && (d < |keys| && keys[d].column in NULLABLE ==> cells(s[i], keys[d].column) != NullV)
  {
    hide StrictTotal, Before;
    var keys := OrderBy(sorts, nulls);
    d := BeforeMeans(less, keys, cells, s[i], s[j]);
    NullableLast(sorts, nulls);
    if d < |keys| {
      assert keys[d] in keys;
    }
  }

  lemma {:induction false} NullableLast(sorts: seq<SortParam>, nulls: NullOrder)
    ensures forall k :: k in OrderBy(sorts, nulls) && k.column in NULLABLE ==> k.nullsLast
    decreases |sorts|
  {
    hide ColumnOf;
    if sorts != [] {
      NullableLast(sorts[..|sorts| - 1], nulls);
    }
  }

  // ----- pages -----

  const DEFAULT_PAGE_SIZE := 20
  const MAX_PAGE_SIZE := 100

  function Min(a: int, b: int): int { if a <= b then a else b }

  /** The page arithmetic of GetVMs; the offset is a product of machine integers read as unsigned. */
  method PageBounds(pageParam: Option<int>, sizeParam: Option<int>) returns (page: int, size: int, offset: int)
    ensures page >= 1 && 1 <= size <= 100 && 0 <= offset < TWO64
    ensures pageParam.Some? && pageParam.value > 0 ==> page == pageParam.value
    ensures sizeParam.Some? && sizeParam.value > 0 ==> size == (if sizeParam.value <= 100 then sizeParam.value else 100)
    ensures pageParam.None? || pageParam.value <= 0 ==> page == 1
    ensures sizeParam.None? || sizeParam.value <= 0 ==> size == 20
    ensures (page - 1) * size < TWO64 ==> offset == (page - 1) * size
  {
    page := 1;
    if pageParam.Some? && pageParam.value > 0 {
      page := pageParam.value;
    }
    size := DEFAULT_PAGE_SIZE;
    if sizeParam.Some? && sizeParam.value > 0 {
      size := Min(sizeParam.value, MAX_PAGE_SIZE);
    }
    offset := Wrapped((page - 1) * size);
  }

  function Wrapped(x: int): (r: int)
    ensures 0 <= r < TWO64 && (0 <= x < TWO64 ==> r == x)
  {
    x % TWO64
  }

  function PageCount(total: nat, size: nat): (n: nat)
    requires size > 0
    ensures n >= 1 && n * size >= total && (n > 1 ==> (n - 1) * size < total)
  {
    var n := (total + size - 1) / size;
    if n == 0 then 1 else n
  }

  /** LIMIT and OFFSET */
  function Page<T>(s: seq<T>, limit: nat, offset: nat): seq<T>
  {
    s[Min(offset, |s|)..Min(offset + limit, |s|)]
  }

  /** The first n pages, each taken from the answer to its own query. */
  function FirstPages<T>(answers: seq<seq<T>>, size: nat, n: nat): seq<T>
    requires n <= |answers|
  {
    if n == 0 then [] else FirstPages(answers, size, n - 1) + Page(answers[n - 1], size, Wrapped((n - 1) * size))
  }

  lemma {:induction false} PagesOfOneList<T(!new)>(answers: seq<seq<T>>, list: seq<T>, size: nat, n: nat)
    requires n <= |answers| && size > 0 && (forall i :: 0 <= i < |answers| ==> answers[i] == list)
    requires n > 0 ==> (n - 1) * size < TWO64
    ensures FirstPages(answers, size, n) == list[..Min(n * size, |list|)]
    decreases n
  {
    if n > 0 {
      EarlierPages(n, size);
      PagesOfOneList(answers, list, size, n - 1);
      PageFollows(list, (n - 1) * size, size);
    }
  }

  lemma EarlierPages(n: nat, size: nat)
    requires n > 0 && (n - 1) * size < TWO64
    ensures n > 1 ==> (n - 2) * size < TWO64
    ensures (n - 1) * size >= 0 && (n - 1) * size + size == n * size
  {
    assert n > 1 ==> (n - 2) * size == (n - 1) * size - size;
  }

  lemma PageFollows<T>(list: seq<T>, offset: nat, size: nat)
    ensures list[..Min(offset, |list|)] + Page(list, size, offset) == list[..Min(offset + size, |list|)]
  {
  }

  /** Each page is a query of its own, and each query may sort as it likes within the ORDER BY; still the pages 1 to
      pageCount put together are the matching VMs in order, each exactly once. */
  lemma PagesPartition(less: Less, keys: seq<Key>, cells: Cells, ids: seq<string>, size: nat, answers: seq<seq<string>>)
    requires StrictTotal(less) && size > 0 && |ids| < TWO64 && |answers| == PageCount(|ids|, size)
    requires forall i :: 0 <= i < |answers| ==> Sorted(less, keys, cells, answers[i]) && multiset(answers[i]) == multiset(ids)
    ensures var all := FirstPages(answers, size, |answers|);
            multiset(all) == multiset(ids) && Sorted(less, keys, cells, all) && all == answers[0]
  {
    hide StrictTotal, Sorted, FirstPages;
    var list := answers[0];
    forall i | 0 <= i < |answers|
      ensures answers[i] == list
    {
      SortedIsUnique(less, keys, cells, answers[i], list);
    }
    assert |list| == |multiset(list)| == |ids|;
    var n := |answers|;
    PagesOfOneList(answers, list, size, n);
    assert list[..|list|] == list;
  }

  /** There is a way to sort distinct identifiers. */
  lemma {:induction false} SortExists(less: Less, keys: seq<Key>, cells: Cells, ids: seq<string>) returns (s: seq<string>)
    requires StrictTotal(less) && NoDup(ids)
    ensures Sorted(less, keys, cells, s) && multiset(s) == multiset(ids)
    decreases |ids|
  {
    hide StrictTotal, Before;
    if ids == [] {
      s := [];
    } else {
      var rest := SortExists(less, keys, cells, ids[1..]);
      assert ids == [ids[0]] + ids[1..];
      assert ids[0] in multiset(rest) <==> ids[0] in multiset(ids[1..]);
      s := InsertInto(less, keys, cells, rest, ids[0]);
    }
  }

  lemma {:induction false} InsertInto(less: Less, keys: seq<Key>, cells: Cells, s: seq<string>, x: string) returns (t: seq<string>)
    requires StrictTotal(less) && Sorted(less, keys, cells, s) && x !in s
    ensures Sorted(less, keys, cells, t) && multiset(t) == multiset(s) + multiset{x}
    decreases |s|
  {
    hide StrictTotal, Before;
    if s == [] {
      t := [x];
    } else if Before(less, keys, cells, x, s[0]) {
      t := [x] + s;
      forall i | 0 < i < |t|
        ensures Before(less, keys, cells, x, t[i])
      {
        BeforeIsStrictTotal(less, keys, cells, x, s[0], s[i - 1]);
      }
    } else {
      BeforeIsStrictTotal(less, keys, cells, x, s[0], x);
      var u := InsertInto(less, keys, cells, s[1..], x);
      t := [s[0]] + u;
      assert s == [s[0]] + s[1..];
      forall i | 0 <= i < |u|
        ensures Before(less, keys, cells, s[0], u[i])
      {
        assert u[i] in multiset(u);
      }
    }
  }

  /** The VMs the list is about: those the filter selects, or all. */
  function Wanted(env: Env, matches: seq<Match>, groups: seq<Group>, filter: Option<Statement>): seq<string>
  {
    if filter.None? then Ids(env.db.vinfo) else Selected(env, matches, groups, filter.value)
  }

  lemma ListIsWanted(env: Env, matches: seq<Match>, groups: seq<Group>, filter: Option<Statement>)
    requires ValidDatabase(env.db)
    ensures var ids := Ids(ListRows(env, matches, groups, filter));
            NoDup(ids) && forall id :: id in ids <==> id in Wanted(env, matches, groups, filter)
  {
    hide Selected, OutputRows, Keyed;
    if filter.None? {
      OutputIds(env, matches, groups);
    } else {
      ListIsSelection(env, matches, groups, filter.value);
    }
  }

  /** The pages of a list, filtered or not: with the page count made from Count, the pages together hold every VM that is
      wanted once, in order, and no other. */
  lemma PagesOfSelection(env: Env, matches: seq<Match>, groups: seq<Group>, filter: Option<Statement>,
                         less: Less, keys: seq<Key>, cells: Cells, size: nat, answers: seq<seq<string>>, id: string)
    requires ValidDatabase(env.db) && StrictTotal(less) && size > 0
    requires Count(env, matches, groups, filter) < TWO64
    requires |answers| == PageCount(Count(env, matches, groups, filter), size)
    requires forall i :: 0 <= i < |answers| ==> Sorted(less, keys, cells, answers[i])
    requires forall i :: 0 <= i < |answers| ==> multiset(answers[i]) == multiset(Ids(ListRows(env, matches, groups, filter)))
    ensures var all := FirstPages(answers, size, |answers|);
            && Sorted(less, keys, cells, all)
            && multiset(all)[id] == if id in Wanted(env, matches, groups, filter) then 1 else 0
  {
    hide StrictTotal, Sorted, FirstPages, ListRows, Wanted, Count, ValidDatabase;
    var ids := Ids(ListRows(env, matches, groups, filter));
    CountIsListLength(env, matches, groups, filter);
    ListIsWanted(env, matches, groups, filter);
    PagesPartition(less, keys, cells, ids, size, answers);
    OnceEach(ids, id);
  }
}
