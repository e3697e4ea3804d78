/** Tables, left joins and DISTINCT, as the queries over the VM tables use them (internal/store/vm_queries.go). */
module Tables {
  import opened FilterSql
  import opened SqlLogic

  /** A row of vinfo with what has been joined to it so far. */
  datatype Joined = Joined(id: string, row: Row)

  /** The right side of a LEFT JOIN: the columns it brings, its rows, and the ON condition. */
  datatype Join = Join(columns: set<string>, rows: seq<Row>, on: (Joined, Row) -> bool)

  function Overlay(row: Row, columns: set<string>, cells: Row): Row
  {
    (c: string) => if c in columns then cells(c) else row(c)
  }

  function NullRow(): Row { (c: string) => NullV }

  function Matching(j: Joined, rows: seq<Row>, on: (Joined, Row) -> bool): (r: seq<Row>)
    ensures |r| <= |rows|
  {
    if rows == [] then []
    else if on(j, rows[0]) then [rows[0]] + Matching(j, rows[1..], on)
    else Matching(j, rows[1..], on)
  }

  /** What a row becomes: one row for each match, or one with NULLs. */
  function Extended(j: Joined, join: Join): (r: seq<Joined>)
    ensures |r| >= 1 && forall i :: 0 <= i < |r| ==> r[i].id == j.id
  {
    var ms := Matching(j, join.rows, join.on);
    if ms == [] then [Joined(j.id, Overlay(j.row, join.columns, NullRow()))]
    else seq(|ms|, i requires 0 <= i < |ms| => Joined(j.id, Overlay(j.row, join.columns, ms[i])))
  }

  function LeftJoin(left: seq<Joined>, join: Join): seq<Joined>
  {
    if left == [] then [] else Extended(left[0], join) + LeftJoin(left[1..], join)
  }

  function LeftJoins(left: seq<Joined>, joins: seq<Join>): seq<Joined>
    decreases |joins|
  {
    if joins == [] then left else LeftJoins(LeftJoin(left, joins[0]), joins[1..])
  }

  function Ids(rows: seq<Joined>): (r: seq<string>)
    ensures |r| == |rows| && forall i :: 0 <= i < |rows| ==> r[i] == rows[i].id
  {
    seq(|rows|, i requires 0 <= i < |rows| => rows[i].id)
  }

  /** SELECT DISTINCT, keeping first occurrences. */
  function Distinct<T(==, !new)>(s: seq<T>): (r: seq<T>)
    ensures forall x :: x in r <==> x in s
    ensures forall i, j :: 0 <= i < j < |r| ==> r[i] != r[j]
    decreases |s|
  {
    if s == [] then []
    else
      var r := Distinct(s[..|s| - 1]);
      assert s == s[..|s| - 1] + [s[|s| - 1]];
      if s[|s| - 1] in r then r else r + [s[|s| - 1]]
  }

  // ----- what a left join is -----

  /** The row has the cells of the right side in its columns and those of the left row in all others. */
  ghost predicate Combines(row: Row, left: Row, columns: set<string>, cells: Row)
  {
    forall c :: row(c) == if c in columns then cells(c) else left(c)
  }

  ghost predicate CombinesNull(row: Row, left: Row, columns: set<string>)
  {
    forall c :: row(c) == if c in columns then NullV else left(c)
  }

  /** The n-th row of the right side matches. */
  ghost predicate MatchesAt(l: Joined, join: Join, n: nat) { n < |join.rows| && join.on(l, join.rows[n]) }

  /** The row comes from l and a row that matches it, or from l alone if none does. */
  ghost predicate ComesFrom(j: Joined, l: Joined, join: Join)
  {
    && j.id == l.id
    && (|| (exists n: nat :: MatchesAt(l, join, n) && Combines(j.row, l.row, join.columns, join.rows[n]))
        || ((forall n: nat :: !MatchesAt(l, join, n)) && CombinesNull(j.row, l.row, join.columns)))
  }

  /** What matches is a row of the table on which the condition holds, */
  lemma {:induction false} MatchingSound(j: Joined, rows: seq<Row>, on: (Joined, Row) -> bool, i: nat) returns (n: nat)
    requires i < |Matching(j, rows, on)|
    ensures n < |rows| && on(j, rows[n]) && rows[n] == Matching(j, rows, on)[i]
    decreases |rows|
  {
    if on(j, rows[0]) && i == 0 {
      n := 0;
    } else {
      var m := MatchingSound(j, rows[1..], on, if on(j, rows[0]) then i - 1 else i);
      n := m + 1;
    }
  }

  /** and every such row matches. */
  lemma {:induction false} MatchingComplete(j: Joined, rows: seq<Row>, on: (Joined, Row) -> bool, n: nat) returns (i: nat)
    requires n < |rows| && on(j, rows[n])
    ensures i < |Matching(j, rows, on)| && Matching(j, rows, on)[i] == rows[n]
    decreases |rows|
  {
    if n == 0 {
      i := 0;
    } else {
      var m := MatchingComplete(j, rows[1..], on, n - 1);
      i := if on(j, rows[0]) then m + 1 else m;
    }
  }

  lemma {:induction false} MatchingNone(j: Joined, rows: seq<Row>, on: (Joined, Row) -> bool)
    requires forall n :: 0 <= n < |rows| ==> !on(j, rows[n])
    ensures Matching(j, rows, on) == []
    decreases |rows|
  {
    if rows != [] {
      MatchingNone(j, rows[1..], on);
    }
  }

  lemma ExtendedSound(l: Joined, join: Join, i: nat)
    requires i < |Extended(l, join)|
    ensures ComesFrom(Extended(l, join)[i], l, join)
  {
    hide Matching;
    var ms, j := Matching(l, join.rows, join.on), Extended(l, join)[i];
    if ms == [] {
      forall n: nat
        ensures !MatchesAt(l, join, n)
      {
        if MatchesAt(l, join, n) {
          var m := MatchingComplete(l, join.rows, join.on, n);
        }
      }
      assert CombinesNull(j.row, l.row, join.columns);
    } else {
      var n := MatchingSound(l, join.rows, join.on, i);
      assert MatchesAt(l, join, n) && Combines(j.row, l.row, join.columns, join.rows[n]);
    }
  }

  lemma ExtendedComplete(l: Joined, join: Join, n: nat) returns (i: nat)
    requires MatchesAt(l, join, n)
    ensures i < |Extended(l, join)| && Combines(Extended(l, join)[i].row, l.row, join.columns, join.rows[n])
  {
    hide Matching;
    i := MatchingComplete(l, join.rows, join.on, n);
  }

  /** Every row of a left join comes from a left row and a row that matches it, or from a left row that nothing matches, */
  lemma {:induction false} LeftJoinSound(left: seq<Joined>, join: Join, i: nat) returns (k: nat)
    requires i < |LeftJoin(left, join)|
    ensures k < |left| && ComesFrom(LeftJoin(left, join)[i], left[k], join)
    decreases |left|
  {
    hide ComesFrom, Extended;
    var x := Extended(left[0], join);
    if i < |x| {
      ExtendedSound(left[0], join, i);
      k := 0;
    } else {
      var m := LeftJoinSound(left[1..], join, i - |x|);
      k := m + 1;
    }
  }

  /** and every left row appears with each row that matches it. */
  lemma {:induction false} LeftJoinComplete(left: seq<Joined>, join: Join, k: nat, n: nat) returns (i: nat)
    requires k < |left| && MatchesAt(left[k], join, n)
    ensures var all := LeftJoin(left, join);
            i < |all| && all[i].id == left[k].id && Combines(all[i].row, left[k].row, join.columns, join.rows[n])
    decreases |left|
  {
    hide Combines, Extended;
    var x := Extended(left[0], join);
    if k == 0 {
      i := ExtendedComplete(left[0], join, n);
    } else {
      var m := LeftJoinComplete(left[1..], join, k - 1, n);
      i := |x| + m;
    }
  }

  // ----- what joins keep -----

  lemma {:induction false} LeftJoinIds(left: seq<Joined>, join: Join, id: string)
    ensures id in Ids(LeftJoin(left, join)) <==> id in Ids(left)
    decreases |left|
  {
    if left != [] {
      var x, rest := Extended(left[0], join), LeftJoin(left[1..], join);
      LeftJoinIds(left[1..], join, id);
      assert Ids(x + rest) == Ids(x) + Ids(rest);
      assert Ids(left) == [left[0].id] + Ids(left[1..]);
      assert Ids(x)[0] == left[0].id;
    }
  }

  /** No left row is lost and no identifier invented. */
  lemma {:induction false} LeftJoinsIds(left: seq<Joined>, joins: seq<Join>, id: string)
    ensures id in Ids(LeftJoins(left, joins)) <==> id in Ids(left)
    decreases |joins|
  {
    if joins != [] {
      LeftJoinIds(left, joins[0], id);
      LeftJoinsIds(LeftJoin(left, joins[0]), joins[1..], id);
    }
  }

  /** At most one row matches, whatever was joined before: the right side is keyed. */
  ghost predicate Keyed(join: Join) { forall j: Joined :: |Matching(j, join.rows, join.on)| <= 1 }

  function OnlyMatch(j: Joined, join: Join): Row
  {
    var ms := Matching(j, join.rows, join.on);
    if ms == [] then NullRow() else ms[0]
  }

  function ExtendedOnce(j: Joined, join: Join): Joined
  {
    Joined(j.id, Overlay(j.row, join.columns, OnlyMatch(j, join)))
  }

  /** A join on a key maps row by row. */
  lemma {:induction false} KeyedJoin(left: seq<Joined>, join: Join)
    requires Keyed(join)
    ensures |LeftJoin(left, join)| == |left|
    ensures forall i :: 0 <= i < |left| ==> LeftJoin(left, join)[i] == ExtendedOnce(left[i], join)
    decreases |left|
  {
    if left != [] {
      KeyedJoin(left[1..], join);
      assert |Matching(left[0], join.rows, join.on)| <= 1;
      assert Extended(left[0], join) == [ExtendedOnce(left[0], join)];
    }
  }

  lemma KeyedJoinIds(left: seq<Joined>, join: Join)
    requires Keyed(join)
    ensures Ids(LeftJoin(left, join)) == Ids(left)
  {
    hide Keyed, LeftJoin;
    KeyedJoin(left, join);
  }

  /** Joins on keys leave the rows as many and in the order they were. */
  lemma {:induction false} KeyedJoins(left: seq<Joined>, joins: seq<Join>)
    requires forall i :: 0 <= i < |joins| ==> Keyed(joins[i])
    ensures Ids(LeftJoins(left, joins)) == Ids(left)
    decreases |joins|
  {
    hide Keyed, LeftJoin;
    if joins != [] {
      KeyedJoinIds(left, joins[0]);
      KeyedJoins(LeftJoin(left, joins[0]), joins[1..]);
    }
  }

  // ----- WHERE -----

  /** The identifiers of the rows on which the condition is true; not those on which it is unknown. */
  function Where(rows: seq<Joined>, c: Cond, args: seq<Value>, sem: Semantics): seq<string>
  {
    if rows == [] then []
    else
      var rest := Where(rows[1..], c, args, sem);
      if Eval(c, args, rows[0].row, sem) == Yes then [rows[0].id] + rest else rest
  }

  lemma {:induction false} WhereHas(rows: seq<Joined>, c: Cond, args: seq<Value>, sem: Semantics, id: string)
    ensures id in Where(rows, c, args, sem) <==>
            exists i :: 0 <= i < |rows| && rows[i].id == id && Eval(c, args, rows[i].row, sem) == Yes
    decreases |rows|
  {
    if rows != [] {
      WhereHas(rows[1..], c, args, sem, id);
      if id in Where(rows[1..], c, args, sem) {
        var i :| 0 <= i < |rows| - 1 && rows[1..][i].id == id && Eval(c, args, rows[1..][i].row, sem) == Yes;
        assert rows[i + 1].id == id;
      }
      if i :| 0 <= i < |rows| && rows[i].id == id && Eval(c, args, rows[i].row, sem) == Yes {
        if i > 0 {
          assert rows[1..][i - 1] == rows[i];
        }
      }
    }
  }

  /** The condition cannot tell the rows apart. */
  ghost predicate SameToCondition(a: seq<Joined>, b: seq<Joined>, c: Cond, args: seq<Value>, sem: Semantics)
  {
    |a| == |b| && forall i :: 0 <= i < |a| ==> a[i].id == b[i].id && Eval(c, args, a[i].row, sem) == Eval(c, args, b[i].row, sem)
  }

  lemma {:induction false} WhereSame(a: seq<Joined>, b: seq<Joined>, c: Cond, args: seq<Value>, sem: Semantics)
    requires SameToCondition(a, b, c, args, sem)
    ensures Where(a, c, args, sem) == Where(b, c, args, sem)
    decreases |a|
  {
    if a != [] {
      WhereSame(a[1..], b[1..], c, args, sem);
    }
  }
}
