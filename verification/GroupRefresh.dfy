/** The tables of GroupStore and RefreshMatches (internal/store/group.go). */
module GroupRefresh {
  import opened FilterParser
  import opened FilterMeaning
  import opened Wrappers
  import opened SqlLogic
  import opened Tables
  import opened GroupMatches

  datatype Refresh = Refresh(ok: bool, matches: seq<Match>)

  predicate HasRow(matches: seq<Match>, id: string) { exists i :: 0 <= i < |matches| && matches[i].groupId == id }

  /** list("VM ID") */
  function Listed(ids: seq<string>): Option<seq<string>> { if ids == [] then None else Some(ids) }

  function NewRow(env: Env, g: Group, groups: seq<Group>, matches: seq<Match>, q: Statement): Match
  {
    Match(g.id, Listed(Selected(env, matches, groups, q)))
  }

  /** Inserts a row for each group whose filter compiles, evaluated against the rows that are there by then; a second
      row for a group violates the key and ends the loop. */
  function Rebuild(env: Env, todo: seq<Group>, groups: seq<Group>, matches: seq<Match>): Refresh
    decreases |todo|
  {
    if todo == [] then Refresh(true, matches)
    else
      var q := ByFilter(env, todo[0].filter);
      if q.None? then Rebuild(env, todo[1..], groups, matches)
      else if HasRow(matches, todo[0].id) then Refresh(false, matches)
      else Rebuild(env, todo[1..], groups, matches + [NewRow(env, todo[0], groups, matches, q.value)])
  }

  /** DELETE ... WHERE group_id IN ids */
  function Cleared(matches: seq<Match>, ids: seq<string>): seq<Match>
  {
    if matches == [] then []
    else if matches[0].groupId in ids then Cleared(matches[1..], ids)
    else [matches[0]] + Cleared(matches[1..], ids)
  }

  function Lookup(groups: seq<Group>, id: string): Option<Group>
  {
    if groups == [] then None else if groups[0].id == id then Some(groups[0]) else Lookup(groups[1..], id)
  }

  function GroupIds(groups: seq<Group>): (r: seq<string>)
    ensures |r| == |groups| && forall i :: 0 <= i < |groups| ==> r[i] == groups[i].id
  {
    seq(|groups|, i requires 0 <= i < |groups| => groups[i].id)
  }

  function MatchIds(matches: seq<Match>): (r: seq<string>)
    ensures |r| == |matches| && forall i :: 0 <= i < |matches| ==> r[i] == matches[i].groupId
  {
    seq(|matches|, i requires 0 <= i < |matches| => matches[i].groupId)
  }

  /** The row of a group, if it has one. */
  function RowOf(matches: seq<Match>, id: string): Option<Match>
  {
    if matches == [] then None else if matches[0].groupId == id then Some(matches[0]) else RowOf(matches[1..], id)
  }

  lemma {:induction false} RowOfHas(matches: seq<Match>, id: string)
    ensures RowOf(matches, id).Some? <==> HasRow(matches, id)
    ensures RowOf(matches, id).Some? ==> RowOf(matches, id).value in matches && RowOf(matches, id).value.groupId == id
    decreases |matches|
  {
    if matches != [] {
      RowOfHas(matches[1..], id);
      if HasRow(matches[1..], id) {
        var i :| 0 <= i < |matches| - 1 && matches[1..][i].groupId == id;
        assert matches[i + 1].groupId == id;
      }
      if i :| 0 <= i < |matches| && matches[i].groupId == id {
        if i > 0 {
          assert matches[1..][i - 1].groupId == id;
        }
      }
    }
  }

  lemma {:induction false} RowOfAppend(matches: seq<Match>, m: Match, id: string)
    ensures RowOf(matches + [m], id) ==
            if RowOf(matches, id).Some? then RowOf(matches, id) else if m.groupId == id then Some(m) else None
    decreases |matches|
  {
    if matches == [] {
      assert matches + [m] == [m];
    } else {
      assert (matches + [m])[1..] == matches[1..] + [m];
      RowOfAppend(matches[1..], m, id);
    }
  }

  lemma {:induction false} RowOfCleared(matches: seq<Match>, ids: seq<string>, id: string)
    ensures RowOf(Cleared(matches, ids), id) == if id in ids then None else RowOf(matches, id)
    decreases |matches|
  {
    if matches != [] {
      RowOfCleared(matches[1..], ids, id);
    }
  }

  // ----- what a rebuild does -----

  /** Groups that are not rebuilt keep their row or their lack of one. */
  lemma {:induction false} RebuildLeaves(env: Env, todo: seq<Group>, groups: seq<Group>, matches: seq<Match>, id: string)
    requires RowOf(matches, id).Some? || forall g :: g in todo && g.id == id ==> ByFilter(env, g.filter).None?
    ensures RowOf(Rebuild(env, todo, groups, matches).matches, id) == RowOf(matches, id)
    decreases |todo|
  {
    hide ByFilter, Selected;
    if todo != [] {
      var g := todo[0];
      var q := ByFilter(env, g.filter);
      assert g in todo;
      if q.None? {
        RebuildLeaves(env, todo[1..], groups, matches, id);
      } else if !HasRow(matches, g.id) {
        var m := NewRow(env, g, groups, matches, q.value);
        RowOfAppend(matches, m, id);
        RowOfHas(matches, id);
        RebuildLeaves(env, todo[1..], groups, matches + [m], id);
      }
    }
  }

  /** Whatever is stored now, the filter of the group would select this. */
  function Ideal(env: Env, g: Group): (r: Option<Match>)
  {
    var q := ByFilter(env, g.filter);
    if q.None? then None else Some(NewRow(env, g, [], [], q.value))
  }

  lemma NewRowIsIdeal(env: Env, g: Group, groups: seq<Group>, matches: seq<Match>)
    requires Lawful(env.sem) && ByFilter(env, g.filter).Some? && !UsesGroups(env, g.filter)
    ensures Some(NewRow(env, g, groups, matches, ByFilter(env, g.filter).value)) == Ideal(env, g)
  {
    hide ByFilter, Selected, UsesGroups, Lawful;
    SelectionIgnoresMatches(env, g.filter, matches, groups, [], []);
  }

  /** After a rebuild that succeeds, a group whose filter does not look at groups has the row it should have. */
  lemma {:induction false} RebuildMakes(env: Env, todo: seq<Group>, groups: seq<Group>, matches: seq<Match>, k: nat)
    requires Lawful(env.sem) && Rebuild(env, todo, groups, matches).ok && k < |todo| && !UsesGroups(env, todo[k].filter)
    requires ByFilter(env, todo[k].filter).Some?
    ensures RowOf(Rebuild(env, todo, groups, matches).matches, todo[k].id) == Ideal(env, todo[k])
    decreases |todo|
  {
    hide ByFilter, Selected, UsesGroups, Lawful, Ideal, NewRow;
    var g := todo[0];
    var q := ByFilter(env, g.filter);
    if q.None? {
      RebuildMakes(env, todo[1..], groups, matches, k - 1);
    } else {
      var m := NewRow(env, g, groups, matches, q.value);
      if k == 0 {
        NewRowIsIdeal(env, g, groups, matches);
        assert m.groupId == g.id by { NewRowId(env, g, groups, matches, q.value); }
        RowOfAppend(matches, m, g.id);
        RowOfHas(matches, g.id);
        RebuildLeaves(env, todo[1..], groups, matches + [m], g.id);
      } else {
        RebuildMakes(env, todo[1..], groups, matches + [m], k - 1);
      }
    }
  }

  lemma NewRowId(env: Env, g: Group, groups: seq<Group>, matches: seq<Match>, q: Statement)
    ensures NewRow(env, g, groups, matches, q).groupId == g.id
  {
  }

  /** No two groups to rebuild with the same identifier, at least among those whose filters compile, and none of these
      has a row. */
  ghost predicate Free(env: Env, todo: seq<Group>, matches: seq<Match>)
  {
    && (forall i :: 0 <= i < |todo| && ByFilter(env, todo[i].filter).Some? ==> !HasRow(matches, todo[i].id))
    && (forall i, k :: 0 <= i < k < |todo| && ByFilter(env, todo[i].filter).Some? && ByFilter(env, todo[k].filter).Some? ==>
          todo[i].id != todo[k].id)
  }

  lemma HasRowAppend(matches: seq<Match>, m: Match, id: string)
    ensures HasRow(matches + [m], id) <==> HasRow(matches, id) || m.groupId == id
  {
    if i :| 0 <= i < |matches| && matches[i].groupId == id {
      assert (matches + [m])[i].groupId == id;
    }
    assert (matches + [m])[|matches|] == m;
  }

  lemma FreeTail(env: Env, todo: seq<Group>, matches: seq<Match>)
    requires todo != [] && ByFilter(env, todo[0].filter).None?
    ensures Free(env, todo, matches) <==> Free(env, todo[1..], matches)
  {
    hide ByFilter, HasRow;
    if Free(env, todo[1..], matches) {
      assert forall i :: 1 <= i < |todo| ==> todo[i] == todo[1..][i - 1];
    }
  }

  lemma FreeNext(env: Env, todo: seq<Group>, matches: seq<Match>, m: Match)
    requires todo != [] && ByFilter(env, todo[0].filter).Some? && m.groupId == todo[0].id
    ensures Free(env, todo, matches) <==> !HasRow(matches, m.groupId) && Free(env, todo[1..], matches + [m])
  {
    hide ByFilter, HasRow;
    forall id
      ensures HasRow(matches + [m], id) <==> HasRow(matches, id) || m.groupId == id
    {
      HasRowAppend(matches, m, id);
    }
    var rest := todo[1..];
    if Free(env, rest, matches + [m]) && !HasRow(matches, m.groupId) {
      assert forall i :: 1 <= i < |todo| ==> todo[i] == rest[i - 1];
    }
    if Free(env, todo, matches) {
      assert forall i :: 0 <= i < |rest| ==> rest[i] == todo[i + 1];
    }
  }

  /** A rebuild succeeds exactly when no key is in the way. */
  lemma {:induction false} RebuildSucceedsIff(env: Env, todo: seq<Group>, groups: seq<Group>, matches: seq<Match>)
    ensures Rebuild(env, todo, groups, matches).ok <==> Free(env, todo, matches)
    decreases |todo|
  {
    hide ByFilter, Selected, Free, NewRow;
    if todo == [] {
      assert Free(env, todo, matches) by { NothingToRebuild(env, matches); }
    } else {
      var g := todo[0];
      var q := ByFilter(env, g.filter);
      if q.None? {
        FreeTail(env, todo, matches);
        RebuildSucceedsIff(env, todo[1..], groups, matches);
      } else {
        var m := NewRow(env, g, groups, matches, q.value);
        NewRowId(env, g, groups, matches, q.value);
        FreeNext(env, todo, matches, m);
        if !HasRow(matches, g.id) {
          RebuildSucceedsIff(env, todo[1..], groups, matches + [m]);
        }
      }
    }
  }

  lemma NothingToRebuild(env: Env, matches: seq<Match>)
    ensures Free(env, [], matches)
  {
  }

  // ----- the index and the query -----

  /** COALESCE(vm_ids, []) of the group's row, and nothing if it has none. */
  function MatchedIds(matches: seq<Match>, id: string): seq<string>
  {
    var m := RowOf(matches, id);
    if m.None? then [] else Stored(m.value)
  }

  /** The stored index agrees with the query: the same VMs, each once. */
  ghost predicate AgreesWithList(env: Env, groups: seq<Group>, matches: seq<Match>, g: Group)
  {
    var q := ByFilter(env, g.filter);
    var stored := MatchedIds(matches, g.id);
    var listed := Ids(ListRows(env, matches, groups, q));
    NoDup(stored) && NoDup(listed) && |stored| == |listed| && forall id :: id in stored <==> id in listed
  }

  lemma RemoveAt(b: seq<string>, i: nat) returns (c: seq<string>)
    requires NoDup(b) && i < |b|
    ensures |c| == |b| - 1 && NoDup(c) && forall y :: y in c <==> y in b && y != b[i]
  {
    c := b[..i] + b[i + 1..];
    assert forall k :: 0 <= k < |c| ==> c[k] == b[if k < i then k else k + 1];
    forall y | y in b && y != b[i]
      ensures y in c
    {
      var k :| 0 <= k < |b| && b[k] == y;
      assert c[if k < i then k else k - 1] == y;
    }
  }

  lemma {:induction false} SameElementsSameLength(a: seq<string>, b: seq<string>)
    requires NoDup(a) && NoDup(b) && forall x :: x in a <==> x in b
    ensures |a| == |b|
    decreases |a|
  {
    assert b != [] ==> b[0] in b;
    if a != [] {
      assert a[0] in a && a == [a[0]] + a[1..];
      var i :| 0 <= i < |b| && b[i] == a[0];
      var c := RemoveAt(b, i);
      var d := RemoveAt(a, 0);
      SameElementsSameLength(d, c);
    }
  }

  /** For a filter that compiles and does not look at groups, the ideal row agrees with List, whatever the matches. */
  lemma IdealAgrees(env: Env, groups: seq<Group>, matches: seq<Match>, g: Group)
    requires ValidEnv(env) && ByFilter(env, g.filter).Some? && !UsesGroups(env, g.filter)
    requires RowOf(matches, g.id) == Ideal(env, g)
    ensures AgreesWithList(env, groups, matches, g)
  {
    hide ByFilter, Selected, UsesGroups, Lawful, ValidDatabase, ListRows;
    var q := ByFilter(env, g.filter).value;
    SelectionIgnoresMatches(env, g.filter, matches, groups, [], []);
    ListIsSelection(env, matches, groups, q);
    var stored := MatchedIds(matches, g.id);
    assert stored == Selected(env, [], [], q);
    SameElementsSameLength(stored, Ids(ListRows(env, matches, groups, Some(q))));
  }

  /** The group's filter is a filter, and the stored VMs are those with a row on which it is true, each once. */
  ghost predicate StoresMeaning(env: Env, groups: seq<Group>, matches: seq<Match>, g: Group)
  {
    && ParseText(g.filter, env.re).Success? && IsFilter(ParseText(g.filter, env.re).value)
    && NoDup(MatchedIds(matches, g.id))
    && forall id :: id in MatchedIds(matches, g.id) <==> Satisfies(env, matches, groups, g.filter, id)
  }

  /** What agrees with List stores what the filter means. */
  lemma AgreementMeans(env: Env, groups: seq<Group>, matches: seq<Match>, g: Group)
    requires ValidEnv(env) && ByFilter(env, g.filter).Some? && AgreesWithList(env, groups, matches, g)
    ensures StoresMeaning(env, groups, matches, g)
  {
    hide ByFilter, ParseText, IsFilter, ListRows, Satisfies, MatchedIds, ValidEnv;
    ListMeans(env, matches, groups, g.filter, "");
    forall id
      ensures id in MatchedIds(matches, g.id) <==> Satisfies(env, matches, groups, g.filter, id)
    {
      ListMeans(env, matches, groups, g.filter, id);
    }
  }

  /** A filter that does not compile stores nothing, while List without a filter has every VM: they agree exactly if
      there are no VMs. */
  lemma UncompiledAgreesIffNoVms(env: Env, groups: seq<Group>, matches: seq<Match>, g: Group)
    requires ValidEnv(env) && ByFilter(env, g.filter).None? && RowOf(matches, g.id).None?
    ensures AgreesWithList(env, groups, matches, g) <==> env.db.vinfo == []
  {
    hide ByFilter, UsesGroups, Lawful, OutputRows, Selected;
    OutputIds(env, matches, groups);
    var rows := ListRows(env, matches, groups, None);
    assert |Ids(rows)| == |Ids(env.db.vinfo)| == |env.db.vinfo|;
  }

  // ----- order -----

  ghost predicate NoneUsesGroups(env: Env, todo: seq<Group>) { forall i :: 0 <= i < |todo| ==> !UsesGroups(env, todo[i].filter) }

  lemma {:induction false} Twice<T(!new)>(s: seq<T>, x: T) returns (i: nat, k: nat)
    requires multiset(s)[x] >= 2
    ensures i < k < |s| && s[i] == x && s[k] == x
    decreases |s|
  {
    var n := |s| - 1;
    assert s == s[..n] + [s[n]];
    if s[n] == x {
      k := n;
      assert x in multiset(s[..n]);
      i :| 0 <= i < n && s[..n][i] == x;
    } else {
      i, k := Twice(s[..n], x);
    }
  }

  /** Two places of a sequence are two places of any rearrangement. */
  lemma Rearranged<T(!new)>(a: seq<T>, b: seq<T>, i: nat, k: nat) returns (j: nat, l: nat)
    requires multiset(a) == multiset(b) && i < k < |b|
    ensures j < l < |a| && ((a[j] == b[i] && a[l] == b[k]) || (a[j] == b[k] && a[l] == b[i]))
  {
    if b[i] == b[k] {
      TwiceInMultiset(b, i, k);
      j, l := Twice(a, b[i]);
    } else {
      assert b[i] in multiset(a) && b[k] in multiset(a);
      j :| 0 <= j < |a| && a[j] == b[i];
      l :| 0 <= l < |a| && a[l] == b[k];
      if l < j {
        j, l := l, j;
      }
    }
  }

  /** Whether a rebuild succeeds does not depend on the order. */
  lemma FreeOfOrder(env: Env, a: seq<Group>, b: seq<Group>, matches: seq<Match>)
    requires multiset(a) == multiset(b) && Free(env, a, matches)
    ensures Free(env, b, matches)
  {
    hide ByFilter, HasRow;
    forall i | 0 <= i < |b| && ByFilter(env, b[i].filter).Some?
      ensures !HasRow(matches, b[i].id)
    {
      assert b[i] in multiset(a);
      var j :| 0 <= j < |a| && a[j] == b[i];
    }
    forall i, k | 0 <= i < k < |b| && ByFilter(env, b[i].filter).Some? && ByFilter(env, b[k].filter).Some?
      ensures b[i].id != b[k].id
    {
      var j, l := Rearranged(a, b, i, k);
    }
  }

  /** Rebuilding the same groups in any order succeeds or not alike, and stores the same row for every group if no
      filter looks at groups. */
  lemma OrderDoesNotMatter(env: Env, a: seq<Group>, b: seq<Group>, groups: seq<Group>, matches: seq<Match>, id: string)
    requires Lawful(env.sem) && NoneUsesGroups(env, a) && multiset(a) == multiset(b)
    ensures Rebuild(env, a, groups, matches).ok <==> Rebuild(env, b, groups, matches).ok
    ensures Rebuild(env, a, groups, matches).ok ==>
              RowOf(Rebuild(env, a, groups, matches).matches, id) == RowOf(Rebuild(env, b, groups, matches).matches, id)
  {
    hide ByFilter, UsesGroups, Lawful, Rebuild, Free;
    RebuildSucceedsIff(env, a, groups, matches);
    RebuildSucceedsIff(env, b, groups, matches);
    if Free(env, a, matches) {
      FreeOfOrder(env, a, b, matches);
      SameRows(env, a, b, groups, matches, id);
    } else if Free(env, b, matches) {
      FreeOfOrder(env, b, a, matches);
    }
  }

  lemma SameRows(env: Env, a: seq<Group>, b: seq<Group>, groups: seq<Group>, matches: seq<Match>, id: string)
    requires Lawful(env.sem) && NoneUsesGroups(env, a) && multiset(a) == multiset(b)
    requires Rebuild(env, a, groups, matches).ok && Rebuild(env, b, groups, matches).ok
    ensures RowOf(Rebuild(env, a, groups, matches).matches, id) == RowOf(Rebuild(env, b, groups, matches).matches, id)
  {
    hide ByFilter, UsesGroups, Lawful, Ideal, Rebuild;
    forall g
      ensures g in a <==> g in b
    {
      assert g in multiset(a) <==> g in multiset(b);
    }
    if i: nat :| i < |a| && a[i].id == id && ByFilter(env, a[i].filter).Some? {
      assert a[i] in b;
      var k: nat :| k < |b| && b[k] == a[i];
      RebuildMakes(env, a, groups, matches, i);
      RebuildMakes(env, b, groups, matches, k);
    } else {
      RebuildLeaves(env, a, groups, matches, id);
      forall g | g in b && g.id == id
        ensures ByFilter(env, g.filter).None?
      {
        var i: nat :| i < |a| && a[i] == g;
      }
      RebuildLeaves(env, b, groups, matches, id);
    }
  }
}
