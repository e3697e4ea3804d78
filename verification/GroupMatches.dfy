/** The precomputed matches of groups and the VM query they must agree with (internal/store/group.go,
    internal/store/vm.go, internal/store/vm_queries.go). */
module GroupMatches {
  import opened Wrappers
  import opened FilterSyntax
  import opened FilterParser
  import opened FilterSql
  import opened SqlLogic
  import opened FilterMeaning
  import opened FilterCompiler
  import opened Tables

  datatype Group = Group(id: string, name: string, filter: string)

  /** A row of group_matches; list() over no rows is NULL. */
  datatype Match = Match(groupId: string, vmIds: Option<seq<string>>)

  /** The VM tables: vinfo, what the filter query joins to it before the groups, what the output query joins before the
      groups and the utilization after them. */
  datatype Database = Database(vinfo: seq<Joined>, flat: seq<Join>, output: seq<Join>, usage: seq<Join>)

  /** vinfo is keyed by VM ID; the output query joins only what is keyed or grouped by it. */
  ghost predicate ValidDatabase(db: Database)
  {
    && NoDup(Ids(db.vinfo))
    && (forall i :: 0 <= i < |db.output| ==> Keyed(db.output[i]))
    && (forall i :: 0 <= i < |db.usage| ==> Keyed(db.usage[i]))
  }

  /** The tables, how the database evaluates, the mapper, and which patterns are valid. */
  datatype Env = Env(db: Database, sem: Semantics, mf: Mapper, re: string -> bool)

  ghost predicate ValidEnv(env: Env) { ValidDatabase(env.db) && Lawful(env.sem) }

  const GROUPS := "g.groups"
  const VM_ID := "u.vm_id"

  // ----- the groups of a VM as a joined table -----

  function GroupNamed(groups: seq<Group>, id: string): Option<string>
  {
    if groups == [] then None else if groups[0].id == id then Some(groups[0].name) else GroupNamed(groups[1..], id)
  }

  /** COALESCE(vm_ids, []) */
  function Stored(m: Match): seq<string> { if m.vmIds.Some? then m.vmIds.value else [] }

  /** group_matches joined with groups, the identifiers unnested. */
  function Unnested(matches: seq<Match>, groups: seq<Group>): seq<string>
  {
    if matches == [] then []
    else (if GroupNamed(groups, matches[0].groupId).Some? then Stored(matches[0]) else []) + Unnested(matches[1..], groups)
  }

  function NamesOf(vm: string, matches: seq<Match>, groups: seq<Group>): seq<string>
  {
    if matches == [] then []
    else
      var name := GroupNamed(groups, matches[0].groupId);
      (if name.Some? && vm in Stored(matches[0]) then [name.value] else []) + NamesOf(vm, matches[1..], groups)
  }

  /** One row of the aggregate, with the distinct names of the groups that hold the VM. */
  function Aggregate(vm: string, names: seq<string>): Row
  {
    (c: string) => if c == VM_ID then TextV(vm) else if c == GROUPS then ListV(names) else NullV
  }

  function AggregateRows(vms: seq<string>, matches: seq<Match>, groups: seq<Group>): (r: seq<Row>)
    ensures |r| == |vms| && forall i :: 0 <= i < |vms| ==> r[i](VM_ID) == TextV(vms[i])
  {
    seq(|vms|, i requires 0 <= i < |vms| => Aggregate(vms[i], Distinct(NamesOf(vms[i], matches, groups))))
  }

  function OnVm(): (Joined, Row) -> bool { (j: Joined, r: Row) => r(VM_ID) == TextV(j.id) }

  function GroupsJoin(matches: seq<Match>, groups: seq<Group>): Join
  {
    Join({GROUPS}, AggregateRows(Distinct(Unnested(matches, groups)), matches, groups), OnVm())
  }

  lemma {:induction false} OneMatch(j: Joined, rows: seq<Row>)
    requires forall i, k :: 0 <= i < k < |rows| ==> rows[i](VM_ID) != rows[k](VM_ID)
    ensures |Matching(j, rows, OnVm())| <= 1
    ensures Matching(j, rows, OnVm()) != [] ==> exists i :: 0 <= i < |rows| && rows[i](VM_ID) == TextV(j.id)
    decreases |rows|
  {
    if rows != [] {
      OneMatch(j, rows[1..]);
      if Matching(j, rows[1..], OnVm()) != [] {
        var i :| 0 <= i < |rows| - 1 && rows[1..][i](VM_ID) == TextV(j.id);
        assert rows[i + 1](VM_ID) == TextV(j.id);
      }
    }
  }

  /** The groups are joined on a key. */
  lemma GroupsJoinKeyed(matches: seq<Match>, groups: seq<Group>)
    ensures Keyed(GroupsJoin(matches, groups))
  {
    hide Unnested;
    var vms := Distinct(Unnested(matches, groups));
    var rows := AggregateRows(vms, matches, groups);
    forall j: Joined
      ensures |Matching(j, rows, OnVm())| <= 1
    {
      OneMatch(j, rows);
    }
  }

  // ----- what the groups column holds -----

  /** The group of this name exists, and its stored row holds the VM. */
  ghost predicate InGroupNamed(vm: string, matches: seq<Match>, groups: seq<Group>, name: string)
  {
    exists m: nat, g: nat :: InGroupAt(vm, matches, groups, name, m, g)
  }

  ghost predicate InGroupAt(vm: string, matches: seq<Match>, groups: seq<Group>, name: string, m: nat, g: nat)
  {
    && m < |matches| && g < |groups| && matches[m].groupId == groups[g].id && groups[g].name == name
    && matches[m].vmIds.Some? && vm in matches[m].vmIds.value
  }

  /** Groups are keyed by identifier. */
  ghost predicate UniqueIds(groups: seq<Group>) { forall i, k :: 0 <= i < k < |groups| ==> groups[i].id != groups[k].id }

  lemma {:induction false} GroupNamedIs(groups: seq<Group>, g: nat)
    requires UniqueIds(groups) && g < |groups|
    ensures GroupNamed(groups, groups[g].id) == Some(groups[g].name)
    decreases |groups|
  {
    if g > 0 {
      GroupNamedIs(groups[1..], g - 1);
    }
  }

  lemma {:induction false} GroupNamedFrom(groups: seq<Group>, id: string) returns (g: nat)
    requires GroupNamed(groups, id).Some?
    ensures g < |groups| && groups[g].id == id && groups[g].name == GroupNamed(groups, id).value
    decreases |groups|
  {
    if groups[0].id == id {
      g := 0;
    } else {
      var h := GroupNamedFrom(groups[1..], id);
      g := h + 1;
    }
  }

  lemma {:induction false} NamesOfFrom(vm: string, matches: seq<Match>, groups: seq<Group>, name: string)
    requires name in NamesOf(vm, matches, groups)
    ensures InGroupNamed(vm, matches, groups, name)
    decreases |matches|
  {
    var first := GroupNamed(groups, matches[0].groupId);
    if first == Some(name) && vm in Stored(matches[0]) {
      var g := GroupNamedFrom(groups, matches[0].groupId);
      assert InGroupAt(vm, matches, groups, name, 0, g);
    } else {
      NamesOfFrom(vm, matches[1..], groups, name);
      var m: nat, g: nat :| InGroupAt(vm, matches[1..], groups, name, m, g);
      assert InGroupAt(vm, matches, groups, name, m + 1, g);
    }
  }

  lemma {:induction false} NamesOfHas(vm: string, matches: seq<Match>, groups: seq<Group>, name: string, m: nat, g: nat)
    requires UniqueIds(groups) && InGroupAt(vm, matches, groups, name, m, g)
    ensures name in NamesOf(vm, matches, groups) && vm in Unnested(matches, groups)
    decreases |matches|
  {
    GroupNamedIs(groups, g);
    if m > 0 {
      NamesOfHas(vm, matches[1..], groups, name, m - 1, g);
    }
  }

  lemma {:induction false} UnnestedFrom(vm: string, matches: seq<Match>, groups: seq<Group>) returns (name: string)
    requires vm in Unnested(matches, groups)
    ensures InGroupNamed(vm, matches, groups, name)
    decreases |matches|
  {
    if GroupNamed(groups, matches[0].groupId).Some? && vm in Stored(matches[0]) {
      var g := GroupNamedFrom(groups, matches[0].groupId);
      name := groups[g].name;
      assert InGroupAt(vm, matches, groups, name, 0, g);
    } else {
      name := UnnestedFrom(vm, matches[1..], groups);
      var m: nat, g: nat :| InGroupAt(vm, matches[1..], groups, name, m, g);
      assert InGroupAt(vm, matches, groups, name, m + 1, g);
    }
  }

  /** Exactly the names of the groups whose stored rows hold the VM, each once; NULL if there are none. */
  ghost predicate HoldsGroups(v: Value, vm: string, matches: seq<Match>, groups: seq<Group>)
  {
    if v.ListV? then
      && NoDup(v.items) && v.items != []
      && forall name :: name in v.items <==> InGroupNamed(vm, matches, groups, name)
    else v.NullV? && forall name :: !InGroupNamed(vm, matches, groups, name)
  }

  lemma AggregateHolds(vm: string, matches: seq<Match>, groups: seq<Group>)
    requires UniqueIds(groups) && vm in Unnested(matches, groups)
    ensures HoldsGroups(ListV(Distinct(NamesOf(vm, matches, groups))), vm, matches, groups)
  {
    hide Unnested, NamesOf, InGroupAt;
    var names := NamesOf(vm, matches, groups);
    forall name
      ensures name in names <==> InGroupNamed(vm, matches, groups, name)
    {
      if name in names {
        NamesOfFrom(vm, matches, groups, name);
      }
      if InGroupNamed(vm, matches, groups, name) {
        var m: nat, g: nat :| InGroupAt(vm, matches, groups, name, m, g);
        NamesOfHas(vm, matches, groups, name, m, g);
      }
    }
    var name := UnnestedFrom(vm, matches, groups);
    assert name in Distinct(names);
  }

  lemma NoGroups(vm: string, matches: seq<Match>, groups: seq<Group>)
    requires UniqueIds(groups) && vm !in Unnested(matches, groups)
    ensures HoldsGroups(NullV, vm, matches, groups)
  {
    hide Unnested, InGroupAt;
    forall name
      ensures !InGroupNamed(vm, matches, groups, name)
    {
      if InGroupNamed(vm, matches, groups, name) {
        var m: nat, g: nat :| InGroupAt(vm, matches, groups, name, m, g);
        NamesOfHas(vm, matches, groups, name, m, g);
      }
    }
  }

  /** Joined with the groups, a row has in its groups column the names of the VM's groups, and is otherwise as it was. */
  lemma GroupsColumn(left: seq<Joined>, matches: seq<Match>, groups: seq<Group>, i: nat)
    requires UniqueIds(groups) && i < |left|
    ensures var rows := LeftJoin(left, GroupsJoin(matches, groups));
            && |rows| == |left| && rows[i].id == left[i].id
            && HoldsGroups(rows[i].row(GROUPS), left[i].id, matches, groups)
            && forall c :: c != GROUPS ==> rows[i].row(c) == left[i].row(c)
  {
    hide Unnested, HoldsGroups, Matching, LeftJoin, Keyed;
    var join := GroupsJoin(matches, groups);
    GroupsJoinKeyed(matches, groups);
    KeyedJoin(left, join);
    var vms := Distinct(Unnested(matches, groups));
    var ms := Matching(left[i], join.rows, join.on);
    if left[i].id in vms {
      var n: nat :| n < |vms| && vms[n] == left[i].id;
      var m := MatchingComplete(left[i], join.rows, join.on, n);
      var k := MatchingSound(left[i], join.rows, join.on, 0);
      assert vms[k] == left[i].id;
      AggregateHolds(left[i].id, matches, groups);
    } else {
      assert forall n :: 0 <= n < |vms| ==> vms[n] != left[i].id;
      MatchingNone(left[i], join.rows, join.on);
      NoGroups(left[i].id, matches, groups);
    }
  }

  // ----- the two queries -----

  datatype Statement = Statement(text: seq<SqlTok>, args: seq<Value>)

  /** ByFilter: nothing for an empty text or one that does not compile. */
  function ByFilter(env: Env, text: string): Option<Statement>
  {
    if text == "" then None
    else match CompileText(text, env.mf, env.re)
      case Query(t, args) => Some(Statement(t, args))
      case _ => None
  }

  function FlatRows(env: Env, matches: seq<Match>, groups: seq<Group>): seq<Joined>
  {
    LeftJoin(LeftJoins(env.db.vinfo, env.db.flat), GroupsJoin(matches, groups))
  }

  /** vmFilterSubquery with a filter: the distinct identifiers on which it is true. */
  function Selected(env: Env, matches: seq<Match>, groups: seq<Group>, q: Statement): (r: seq<string>)
    ensures forall i, j :: 0 <= i < j < |r| ==> r[i] != r[j]
  {
    var c := ReadSql(q.text);
    if c.Got? then Distinct(Where(FlatRows(env, matches, groups), c.value, q.args, env.sem)) else []
  }

  /** vmOutputQuery with the utilization. */
  function OutputRows(env: Env, matches: seq<Match>, groups: seq<Group>): seq<Joined>
  {
    LeftJoins(env.db.vinfo, env.db.output + [GroupsJoin(matches, groups)] + env.db.usage)
  }

  function KeepIds(rows: seq<Joined>, ids: seq<string>): seq<Joined>
  {
    if rows == [] then []
    else if rows[0].id in ids then [rows[0]] + KeepIds(rows[1..], ids)
    else KeepIds(rows[1..], ids)
  }

  /** The rows of VMStore.List before sorting and paging; with no filter, all. */
  function ListRows(env: Env, matches: seq<Match>, groups: seq<Group>, filter: Option<Statement>): seq<Joined>
  {
    var rows := OutputRows(env, matches, groups);
    if filter.None? then rows else KeepIds(rows, Selected(env, matches, groups, filter.value))
  }

  /** VMStore.Count: counts over vinfo alone. */
  function Count(env: Env, matches: seq<Match>, groups: seq<Group>, filter: Option<Statement>): nat
  {
    if filter.None? then |env.db.vinfo| else |KeepIds(env.db.vinfo, Selected(env, matches, groups, filter.value))|
  }

  /** A row a filter is evaluated on is a row of the other tables joined to vinfo, with the VM's groups in its groups
      column. */
  lemma FlatRowsAre(env: Env, matches: seq<Match>, groups: seq<Group>, i: nat)
    requires UniqueIds(groups) && i < |FlatRows(env, matches, groups)|
    ensures var rows, base := FlatRows(env, matches, groups), LeftJoins(env.db.vinfo, env.db.flat);
            && |rows| == |base| && rows[i].id == base[i].id
            && HoldsGroups(rows[i].row(GROUPS), rows[i].id, matches, groups)
            && forall c :: c != GROUPS ==> rows[i].row(c) == base[i].row(c)
  {
    hide LeftJoins, LeftJoin, HoldsGroups, UniqueIds, Keyed;
    GroupsJoinKeyed(matches, groups);
    KeyedJoin(LeftJoins(env.db.vinfo, env.db.flat), GroupsJoin(matches, groups));
    GroupsColumn(LeftJoins(env.db.vinfo, env.db.flat), matches, groups, i);
  }

  /** Some row of the VM satisfies the filter of the text. */
  ghost predicate Satisfies(env: Env, matches: seq<Match>, groups: seq<Group>, text: string, id: string)
    requires ParseText(text, env.re).Success? && IsFilter(ParseText(text, env.re).value)
  {
    var rows := FlatRows(env, matches, groups);
    exists i :: 0 <= i < |rows| && rows[i].id == id &&
                Meaning(ParseText(text, env.re).value, env.mf, rows[i].row, env.sem) == Yes
  }

  /** A text is a filter exactly if it parses to a well-typed tree. */
  lemma ByFilterIff(env: Env, text: string)
    ensures ByFilter(env, text).Some? <==>
            ParseText(text, env.re).Success? && IsFilter(ParseText(text, env.re).value) && WellTyped(ParseText(text, env.re).value, env.mf)
  {
    hide ParseText, CompileText, IsFilter, WellTyped;
    CompilesIffWellTyped(text, env.mf, env.re);
    if text == "" {
      EmptyTextFails(env.re);
    }
  }

  /** What a compiled filter selects are the VMs with a row on which the filter of the text is true. */
  lemma SelectedMeans(env: Env, matches: seq<Match>, groups: seq<Group>, text: string, id: string)
    requires ByFilter(env, text).Some? && Lawful(env.sem)
    ensures ParseText(text, env.re).Success? && IsFilter(ParseText(text, env.re).value)
    ensures id in Selected(env, matches, groups, ByFilter(env, text).value) <==> Satisfies(env, matches, groups, text, id)
  {
    hide ParseText, ToSql, IsFilter, ReadSql, Eval, Meaning, FlatRows, Where;
    var e := ParseText(text, env.re).value;
    ParsedIsFilter(text, env.re);
    var q := ByFilter(env, text).value;
    var rows := FlatRows(env, matches, groups);
    var c := ReadSql(q.text);
    TranslationKeepsMeaning(e, env.mf, NullRow(), env.sem);
    forall row: Row
      ensures c.Got? && Eval(c.value, q.args, row, env.sem) == Meaning(e, env.mf, row, env.sem)
    {
      TranslationKeepsMeaning(e, env.mf, row, env.sem);
    }
    WhereHas(rows, c.value, q.args, env.sem, id);
  }

  lemma OutputIds(env: Env, matches: seq<Match>, groups: seq<Group>)
    requires ValidDatabase(env.db)
    ensures Ids(OutputRows(env, matches, groups)) == Ids(env.db.vinfo)
  {
    hide Keyed, LeftJoins, NoDup;
    var joins := env.db.output + [GroupsJoin(matches, groups)] + env.db.usage;
    GroupsJoinKeyed(matches, groups);
    KeyedJoins(env.db.vinfo, joins);
  }

  lemma {:induction false} KeepSame(a: seq<Joined>, b: seq<Joined>, ids: seq<string>)
    requires Ids(a) == Ids(b)
    ensures Ids(KeepIds(a, ids)) == Ids(KeepIds(b, ids)) && |KeepIds(a, ids)| == |KeepIds(b, ids)|
    decreases |a|
  {
    assert |a| == |Ids(a)| == |b|;
    if a != [] {
      assert a[0].id == Ids(a)[0] == Ids(b)[0] == b[0].id;
      assert Ids(a[1..]) == Ids(a)[1..] == Ids(b[1..]);
      KeepSame(a[1..], b[1..], ids);
      KeepIdsCons(a, ids);
      KeepIdsCons(b, ids);
    }
  }

  lemma KeepIdsCons(a: seq<Joined>, ids: seq<string>)
    requires a != []
    ensures Ids(KeepIds(a, ids)) == (if a[0].id in ids then [a[0].id] else []) + Ids(KeepIds(a[1..], ids))
  {
  }

  /** The number Count gives is the number of rows List has. */
  lemma CountIsListLength(env: Env, matches: seq<Match>, groups: seq<Group>, filter: Option<Statement>)
    requires ValidDatabase(env.db)
    ensures Count(env, matches, groups, filter) == |ListRows(env, matches, groups, filter)|
  {
    hide OutputRows, Selected, ValidDatabase, KeepIds;
    var rows := OutputRows(env, matches, groups);
    OutputIds(env, matches, groups);
    assert |rows| == |Ids(rows)| == |Ids(env.db.vinfo)|;
    if filter.Some? {
      KeepSame(rows, env.db.vinfo, Selected(env, matches, groups, filter.value));
    }
  }

  lemma {:induction false} KeptIds(rows: seq<Joined>, ids: seq<string>, id: string)
    ensures id in Ids(KeepIds(rows, ids)) <==> id in Ids(rows) && id in ids
    decreases |rows|
  {
    if rows != [] {
      KeptIds(rows[1..], ids, id);
      KeepIdsCons(rows, ids);
      assert Ids(rows) == [rows[0].id] + Ids(rows[1..]);
    }
  }

  /** List with a filter has exactly the VMs with a row on which the filter of the text is true. */
  lemma ListMeans(env: Env, matches: seq<Match>, groups: seq<Group>, text: string, id: string)
    requires ByFilter(env, text).Some? && ValidEnv(env)
    ensures ParseText(text, env.re).Success? && IsFilter(ParseText(text, env.re).value)
    ensures id in Ids(ListRows(env, matches, groups, ByFilter(env, text))) <==> Satisfies(env, matches, groups, text, id)
  {
    hide ParseText, IsFilter, ListRows, Selected, ByFilter, Satisfies;
    SelectedMeans(env, matches, groups, text, id);
    ListIsSelection(env, matches, groups, ByFilter(env, text).value);
  }

  lemma {:induction false} KeptNoDup(rows: seq<Joined>, ids: seq<string>)
    requires NoDup(Ids(rows))
    ensures NoDup(Ids(KeepIds(rows, ids)))
    decreases |rows|
  {
    if rows != [] {
      var rest := rows[1..];
      assert Ids(rows) == [rows[0].id] + Ids(rest);
      assert forall i :: 0 <= i < |Ids(rest)| ==> Ids(rest)[i] == Ids(rows)[i + 1];
      KeptNoDup(rest, ids);
      KeepIdsCons(rows, ids);
      KeptIds(rest, ids, rows[0].id);
    }
  }

  lemma SelectedAreVms(env: Env, matches: seq<Match>, groups: seq<Group>, q: Statement, id: string)
    requires id in Selected(env, matches, groups, q)
    ensures id in Ids(env.db.vinfo)
  {
    hide LeftJoin, LeftJoins, GroupsJoin, Where, ReadSql, Eval;
    var c := ReadSql(q.text);
    var rows := FlatRows(env, matches, groups);
    WhereHas(rows, c.value, q.args, env.sem, id);
    var i :| 0 <= i < |rows| && rows[i].id == id && Eval(c.value, q.args, rows[i].row, env.sem) == Yes;
    assert Ids(rows)[i] == id;
    LeftJoinIds(LeftJoins(env.db.vinfo, env.db.flat), GroupsJoin(matches, groups), id);
    LeftJoinsIds(env.db.vinfo, env.db.flat, id);
  }

  /** List has one row for each selected VM, and the selection is exactly its identifiers. */
  lemma ListIsSelection(env: Env, matches: seq<Match>, groups: seq<Group>, q: Statement)
    requires ValidDatabase(env.db)
    ensures var ids := Ids(ListRows(env, matches, groups, Some(q)));
            NoDup(ids) && forall id :: id in ids <==> id in Selected(env, matches, groups, q)
  {
    hide OutputRows, Selected, Keyed, KeepIds;
    var rows, sel := OutputRows(env, matches, groups), Selected(env, matches, groups, q);
    OutputIds(env, matches, groups);
    KeptNoDup(rows, sel);
    forall id
      ensures id in Ids(KeepIds(rows, sel)) <==> id in sel
    {
      KeptIds(rows, sel, id);
      if id in sel {
        SelectedAreVms(env, matches, groups, q, id);
      }
    }
  }

  // ----- filters that do not look at groups -----

  predicate Mentions(e: Expression, mf: Mapper, column: string)
    requires IsFilter(e)
  {
    match e
    case BinaryExpr(l, op, r) =>
      if op == And || op == Or then Mentions(l, mf, column) || Mentions(r, mf, column)
      else mf(Lower(l.name)).Known? && mf(Lower(l.name)).column == column
    case InExpr(subject, _, _) => mf(Lower(subject.name)).Known? && mf(Lower(subject.name)).column == column
    case ContainsExpr(subject, _, _) => mf(Lower(subject.name)).Known? && mf(Lower(subject.name)).column == column
  }

  ghost predicate AgreeBut(a: Row, b: Row, column: string) { forall c :: c != column ==> a(c) == b(c) }

  lemma {:induction false} MeaningIgnores(e: Expression, mf: Mapper, column: string, a: Row, b: Row, sem: Semantics)
    requires IsFilter(e) && !Mentions(e, mf, column) && AgreeBut(a, b, column)
    ensures Meaning(e, mf, a, sem) == Meaning(e, mf, b, sem)
    decreases e
  {
    hide Lower, Holds, OneOf;
    match e
    case BinaryExpr(l, op, r) =>
      if op == And || op == Or {
        MeaningIgnores(l, mf, column, a, b, sem);
        MeaningIgnores(r, mf, column, a, b, sem);
      }
    case InExpr(_, _, _) =>
    case ContainsExpr(_, _, _) =>
  }

  /** The filter parses to a tree that names a field kept in the groups column. */
  ghost predicate UsesGroups(env: Env, text: string)
  {
    ParseText(text, env.re).Success? && IsFilter(ParseText(text, env.re).value) &&
    Mentions(ParseText(text, env.re).value, env.mf, GROUPS)
  }

  lemma QueryIgnoresGroups(env: Env, text: string, a: Row, b: Row)
    requires ByFilter(env, text).Some? && !UsesGroups(env, text) && AgreeBut(a, b, GROUPS) && Lawful(env.sem)
    ensures var q := ByFilter(env, text).value;
            var c := ReadSql(q.text);
            c.Got? && Eval(c.value, q.args, a, env.sem) == Eval(c.value, q.args, b, env.sem)
  {
    hide ParseText, ToSql, IsFilter, ReadSql, Eval, Meaning, Mentions, AgreeBut;
    var e := ParseText(text, env.re).value;
    ParsedIsFilter(text, env.re);
    TranslationKeepsMeaning(e, env.mf, a, env.sem);
    TranslationKeepsMeaning(e, env.mf, b, env.sem);
    MeaningIgnores(e, env.mf, GROUPS, a, b, env.sem);
  }

  lemma OverlayAgrees(row: Row, x: Row, y: Row)
    ensures AgreeBut(Overlay(row, {GROUPS}, x), Overlay(row, {GROUPS}, y), GROUPS)
  {
  }

  /** What such a filter selects does not depend on what is stored for any group. */
  lemma SelectionIgnoresMatches(env: Env, text: string, m: seq<Match>, gs: seq<Group>, m': seq<Match>, gs': seq<Group>)
    requires ByFilter(env, text).Some? && !UsesGroups(env, text) && Lawful(env.sem)
    ensures Selected(env, m, gs, ByFilter(env, text).value) == Selected(env, m', gs', ByFilter(env, text).value)
  {
    hide ByFilter, UsesGroups, ReadSql, Eval, LeftJoin, LeftJoins, Lawful, Keyed, Where, AgreeBut, OnlyMatch;
    var q := ByFilter(env, text).value;
    var c := ReadSql(q.text);
    var base := LeftJoins(env.db.vinfo, env.db.flat);
    var a, b := GroupsJoin(m, gs), GroupsJoin(m', gs');
    GroupsJoinKeyed(m, gs);
    GroupsJoinKeyed(m', gs');
    KeyedJoin(base, a);
    KeyedJoin(base, b);
    if c.Got? {
      forall i | 0 <= i < |base|
        ensures Eval(c.value, q.args, LeftJoin(base, a)[i].row, env.sem) == Eval(c.value, q.args, LeftJoin(base, b)[i].row, env.sem)
      {
        OverlayAgrees(base[i].row, OnlyMatch(base[i], a), OnlyMatch(base[i], b));
        QueryIgnoresGroups(env, text, LeftJoin(base, a)[i].row, LeftJoin(base, b)[i].row);
      }
      WhereSame(LeftJoin(base, a), LeftJoin(base, b), c.value, q.args, env.sem);
    }
  }
}
