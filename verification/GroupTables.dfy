/** GroupStore with its two tables (internal/store/group.go). */
module GroupTables {
  import opened Wrappers
  import opened SqlLogic
  import opened GroupMatches
  import opened GroupRefresh

  datatype Outcome = Done | NotFound(id: string) | Duplicate

  /** The groups fetched one after the other, up to the first that is missing. */
  function Fetched(groups: seq<Group>, ids: seq<string>): (r: seq<Group>)
    ensures |r| <= |ids|
    ensures forall i :: 0 <= i < |r| ==> Lookup(groups, ids[i]) == Some(r[i])
    ensures |r| < |ids| ==> Lookup(groups, ids[|r|]).None?
  {
    if ids == [] || Lookup(groups, ids[0]).None? then []
    else [Lookup(groups, ids[0]).value] + Fetched(groups, ids[1..])
  }

  lemma {:induction false} LookupId(groups: seq<Group>, id: string)
    ensures Lookup(groups, id).Some? ==> Lookup(groups, id).value.id == id && Lookup(groups, id).value in groups
    ensures Lookup(groups, id).None? ==> id !in GroupIds(groups)
    decreases |groups|
  {
    if groups != [] {
      LookupId(groups[1..], id);
      assert GroupIds(groups) == [groups[0].id] + GroupIds(groups[1..]);
    }
  }

  lemma {:induction false} LookupMember(groups: seq<Group>, i: nat)
    requires NoDup(GroupIds(groups)) && i < |groups|
    ensures Lookup(groups, groups[i].id) == Some(groups[i])
    decreases |groups|
  {
    if i > 0 {
      assert GroupIds(groups)[0] != GroupIds(groups)[i];
      assert forall k :: 0 <= k < |groups| - 1 ==> GroupIds(groups[1..])[k] == GroupIds(groups)[k + 1];
      LookupMember(groups[1..], i - 1);
    }
  }

  /** What a refresh of the groups in todo promises: those that compile and do not look at groups agree with List and
      store the VMs on which their filter is true, those that do not compile have no row, and all others have the row
      they had. */
  ghost predicate RefreshedAll(env: Env, groups: seq<Group>, todo: seq<Group>, before: seq<Match>, after: seq<Match>)
  {
    && (forall i :: 0 <= i < |todo| && ByFilter(env, todo[i].filter).Some? && !UsesGroups(env, todo[i].filter) ==>
          AgreesWithList(env, groups, after, todo[i]) && StoresMeaning(env, groups, after, todo[i]))
    && (forall i :: 0 <= i < |todo| && ByFilter(env, todo[i].filter).None? ==> RowOf(after, todo[i].id).None?)
    && (forall id :: id !in GroupIds(todo) ==> RowOf(after, id) == RowOf(before, id))
  }

  /** Groups of the same identifier are the same group. */
  ghost predicate SameIdSameGroup(todo: seq<Group>)
  {
    forall i, k :: 0 <= i < |todo| && 0 <= k < |todo| && todo[i].id == todo[k].id ==> todo[i] == todo[k]
  }

  lemma RefreshIsRight(env: Env, groups: seq<Group>, todo: seq<Group>, before: seq<Match>, cleared: seq<Match>)
    requires ValidEnv(env) && Rebuild(env, todo, groups, cleared).ok && SameIdSameGroup(todo)
    requires forall id :: RowOf(cleared, id) == if id in GroupIds(todo) then None else RowOf(before, id)
    ensures RefreshedAll(env, groups, todo, before, Rebuild(env, todo, groups, cleared).matches)
  {
    hide ByFilter, UsesGroups, Lawful, ValidDatabase, Rebuild, AgreesWithList, Ideal, StoresMeaning;
    var after := Rebuild(env, todo, groups, cleared).matches;
    forall i | 0 <= i < |todo| && ByFilter(env, todo[i].filter).Some? && !UsesGroups(env, todo[i].filter)
      ensures AgreesWithList(env, groups, after, todo[i]) && StoresMeaning(env, groups, after, todo[i])
    {
      RebuildMakes(env, todo, groups, cleared, i);
      IdealAgrees(env, groups, after, todo[i]);
      AgreementMeans(env, groups, after, todo[i]);
    }
    forall i | 0 <= i < |todo| && ByFilter(env, todo[i].filter).None?
      ensures RowOf(after, todo[i].id).None?
    {
      assert GroupIds(todo)[i] == todo[i].id;
      RebuildLeaves(env, todo, groups, cleared, todo[i].id);
    }
    forall id | id !in GroupIds(todo)
      ensures RowOf(after, id) == RowOf(before, id)
    {
      forall g | g in todo
        ensures g.id != id
      {
        var i :| 0 <= i < |todo| && todo[i] == g;
        assert GroupIds(todo)[i] == g.id;
      }
      RebuildLeaves(env, todo, groups, cleared, id);
    }
  }

  lemma {:induction false} RebuildKeepsKeys(env: Env, todo: seq<Group>, groups: seq<Group>, matches: seq<Match>)
    requires NoDup(MatchIds(matches))
    ensures NoDup(MatchIds(Rebuild(env, todo, groups, matches).matches))
    decreases |todo|
  {
    hide ByFilter, Selected;
    if todo != [] {
      var q := ByFilter(env, todo[0].filter);
      if q.None? {
        RebuildKeepsKeys(env, todo[1..], groups, matches);
      } else if !HasRow(matches, todo[0].id) {
        var m := NewRow(env, todo[0], groups, matches, q.value);
        InsertKeepsKeys(matches, m);
        RebuildKeepsKeys(env, todo[1..], groups, matches + [m]);
      }
    }
  }

  lemma InsertKeepsKeys(matches: seq<Match>, m: Match)
    requires NoDup(MatchIds(matches)) && !HasRow(matches, m.groupId)
    ensures NoDup(MatchIds(matches + [m]))
  {
    var a, b := MatchIds(matches), MatchIds(matches + [m]);
    assert b == a + [m.groupId];
    assert forall i :: 0 <= i < |a| ==> a[i] == matches[i].groupId;
  }

  lemma {:induction false} ClearedKeepsKeys(matches: seq<Match>, ids: seq<string>)
    requires NoDup(MatchIds(matches))
    ensures NoDup(MatchIds(Cleared(matches, ids)))
    ensures forall x :: x in MatchIds(Cleared(matches, ids)) ==> x in MatchIds(matches)
    decreases |matches|
  {
    if matches != [] {
      var rest := matches[1..];
      assert MatchIds(matches) == [matches[0].groupId] + MatchIds(rest);
      assert forall k :: 0 <= k < |rest| ==> MatchIds(rest)[k] == MatchIds(matches)[k + 1];
      assert matches[0].groupId !in MatchIds(rest);
      ClearedKeepsKeys(rest, ids);
      var c := Cleared(rest, ids);
      assert MatchIds([matches[0]] + c) == [matches[0].groupId] + MatchIds(c);
    }
  }

  class GroupStore {
    var groups: seq<Group>
    var matches: seq<Match>

    /** Groups are keyed by identifier, matches by group. */
    ghost predicate Valid()
      reads this
    {
      NoDup(GroupIds(groups)) && NoDup(MatchIds(matches))
    }

    constructor ()
      ensures Valid() && groups == [] && matches == []
    {
      groups, matches := [], [];
    }

    /** Rebuilds the rows of the groups named, or of all of them. An unknown group is reported before anything is
        changed; a group named twice whose filter compiles runs into the key of its own row. */
    method RefreshMatches(env: Env, ids: seq<string>) returns (r: Outcome)
      requires Valid() && ValidEnv(env)
      modifies this`matches
      ensures Valid()
      ensures var todo := if ids == [] then groups else Fetched(groups, ids);
              if ids != [] && |todo| < |ids| then r == NotFound(ids[|todo|]) && matches == old(matches)
              else
                && (r == Done <==> Free(env, todo, if ids == [] then [] else Cleared(old(matches), ids)))
                && (r == Done ==> RefreshedAll(env, groups, todo, if ids == [] then [] else old(matches), matches))
                && (r != Done ==> r == Duplicate)
    {
      hide ByFilter, Selected, RefreshedAll, Free, ValidEnv;
      var todo := groups;
      if ids == [] {
        matches := [];
        AllGroups(groups);
      } else {
        todo := [];
        var n := 0;
        while n < |ids|
          invariant n <= |ids| && |todo| == n && todo == Fetched(groups, ids[..n])
          invariant forall i :: 0 <= i < n ==> Lookup(groups, ids[i]) == Some(todo[i])
          invariant matches == old(matches)
        {
          var g := Lookup(groups, ids[n]);
          if g.None? {
            FetchedStops(groups, ids, todo);
            return NotFound(ids[n]);
          }
          todo := todo + [g.value];
          FetchedIs(groups, ids[..n + 1], todo);
          n := n + 1;
        }
        assert ids[..n] == ids;
        matches := Cleared(matches, ids);
        ClearedKeepsKeys(old(matches), ids);
        FetchedGroups(groups, ids, todo);
      }
      ghost var cleared := matches;
      r := Insert(env, todo);
      RebuildSucceedsIff(env, todo, groups, cleared);
      if r == Done {
        ClearedRows(old(matches), ids, todo);
        RefreshIsRight(env, groups, todo, if ids == [] then [] else old(matches), cleared);
      }
    }

    /** The VMs stored for a group; none for a group without a row or with NULL in it. */
    method GetMatchedIDs(id: string) returns (ids: seq<string>)
      requires Valid()
      ensures ids == MatchedIds(matches, id)
      ensures forall m :: m in matches && m.groupId == id ==> ids == Stored(m)
      ensures !HasRow(matches, id) ==> ids == []
    {
      RowOfHas(matches, id);
      RowIsUnique(matches, id);
      ids := MatchedIds(matches, id);
    }

    method DeleteMatches(id: string)
      requires Valid()
      modifies this`matches
      ensures Valid()
      ensures RowOf(matches, id).None?
      ensures forall other :: other != id ==> RowOf(matches, other) == RowOf(old(matches), other)
    {
      ClearedKeepsKeys(matches, [id]);
      forall other
        ensures RowOf(Cleared(matches, [id]), other) == if other == id then None else RowOf(matches, other)
      {
        RowOfCleared(matches, [id], other);
      }
      matches := Cleared(matches, [id]);
    }

    /** The loop that inserts. */
    method Insert(env: Env, todo: seq<Group>) returns (r: Outcome)
      requires Valid()
      modifies this`matches
      ensures Valid()
      ensures r == (if Rebuild(env, todo, groups, old(matches)).ok then Done else Duplicate)
      ensures matches == Rebuild(env, todo, groups, old(matches)).matches
    {
      hide ByFilter, Selected;
      var n := 0;
      while n < |todo|
        invariant n <= |todo| && Valid()
        invariant Rebuild(env, todo[n..], groups, matches) == Rebuild(env, todo, groups, old(matches))
      {
        var g := todo[n];
        assert todo[n..][1..] == todo[n + 1..];
        var q := ByFilter(env, g.filter);
        n := n + 1;
        if q.None? {
          continue;
        }
        if HasRow(matches, g.id) {
          return Duplicate;
        }
        var m := NewRow(env, g, groups, matches, q.value);
        InsertKeepsKeys(matches, m);
        matches := matches + [m];
      }
      r := Done;
    }
  }

  // ----- what the methods need -----

  lemma {:induction false} RowIsUnique(matches: seq<Match>, id: string)
    requires NoDup(MatchIds(matches))
    ensures forall m :: m in matches && m.groupId == id ==> RowOf(matches, id) == Some(m)
    decreases |matches|
  {
    if matches != [] {
      var rest := matches[1..];
      assert forall k :: 0 <= k < |rest| ==> MatchIds(rest)[k] == MatchIds(matches)[k + 1];
      assert matches[0].groupId !in MatchIds(rest);
      assert forall k :: 0 <= k < |rest| ==> rest[k].groupId == MatchIds(rest)[k];
      RowIsUnique(rest, id);
    }
  }

  lemma {:induction false} FetchedIs(groups: seq<Group>, ids: seq<string>, todo: seq<Group>)
    requires |todo| == |ids| && forall i :: 0 <= i < |ids| ==> Lookup(groups, ids[i]) == Some(todo[i])
    ensures Fetched(groups, ids) == todo
    decreases |ids|
  {
    if ids != [] {
      FetchedIs(groups, ids[1..], todo[1..]);
    }
  }

  lemma {:induction false} FetchedStops(groups: seq<Group>, ids: seq<string>, todo: seq<Group>)
    requires |todo| < |ids| && (forall i :: 0 <= i < |todo| ==> Lookup(groups, ids[i]) == Some(todo[i]))
    requires Lookup(groups, ids[|todo|]).None?
    ensures Fetched(groups, ids) == todo
    decreases |ids|
  {
    if todo != [] {
      FetchedStops(groups, ids[1..], todo[1..]);
    }
  }

  lemma AllGroups(groups: seq<Group>)
    requires NoDup(GroupIds(groups))
    ensures SameIdSameGroup(groups)
  {
    forall i: nat, k: nat | i < |groups| && k < |groups| && groups[i].id == groups[k].id
      ensures groups[i] == groups[k]
    {
      LookupMember(groups, i);
      LookupMember(groups, k);
    }
  }

  lemma FetchedGroups(groups: seq<Group>, ids: seq<string>, todo: seq<Group>)
    requires |todo| == |ids| && forall i :: 0 <= i < |ids| ==> Lookup(groups, ids[i]) == Some(todo[i])
    ensures SameIdSameGroup(todo) && GroupIds(todo) == ids
  {
    forall i | 0 <= i < |ids|
      ensures todo[i].id == ids[i]
    {
      LookupId(groups, ids[i]);
    }
  }

  lemma ClearedRows(matches: seq<Match>, ids: seq<string>, todo: seq<Group>)
    requires ids == [] || GroupIds(todo) == ids
    ensures forall id :: RowOf(if ids == [] then [] else Cleared(matches, ids), id) ==
                         if id in GroupIds(todo) then None else RowOf(if ids == [] then [] else matches, id)
  {
    forall id
      ensures RowOf(Cleared(matches, ids), id) == if id in ids then None else RowOf(matches, id)
    {
      RowOfCleared(matches, ids, id);
    }
  }
}
