/** One dispatch starts as much work as any assignment could, exactly unless negative priorities are stranded. */
module DispatchLaws {
  import opened Dispatch

  /** An assignment of queued items to idle workers: each used at most as often as it is there, all eligible. */
  ghost predicate Assignment<J(!new)>(a: seq<Start<J>>, q: seq<Item<J>>, ws: seq<Worker>)
  {
    && multiset(Items(a)) <= multiset(q)
    && multiset(Workers(a)) <= multiset(ws)
    && AllEligible(a)
  }

  ghost predicate Optimal<J(!new)>(st: seq<Start<J>>, q: seq<Item<J>>, ws: seq<Worker>)
  {
    forall a :: Assignment(a, q, ws) ==> |a| <= |st|
  }

  function Count<T>(p: T -> bool, s: seq<T>): (n: nat)
    ensures n <= |s|
  {
    if s == [] then 0 else (if p(s[0]) then 1 else 0) + Count(p, s[1..])
  }

  const NORMAL: Worker -> bool := (w: Worker) => !w.isReserved
  const RESERVED: Worker -> bool := (w: Worker) => w.isReserved

  function Zero<J>(): Item<J> -> bool { (i: Item<J>) => i.priority == 0 }
  function Above<J>(): Item<J> -> bool { (i: Item<J>) => i.priority > 0 }
  function Below<J>(): Item<J> -> bool { (i: Item<J>) => i.priority < 0 }
  function NonZero<J>(): Item<J> -> bool { (i: Item<J>) => i.priority != 0 }

  /** Work of priority zero outnumbers the normal workers while reserved workers are left over from the work above
      it, and there is work of negative priority that could use them. */
  predicate Stranded<J>(q: seq<Item<J>>, ws: seq<Worker>)
  {
    && Count(Zero(), q) > Count(NORMAL, ws)
    && Count(Above(), q) < Count(RESERVED, ws)
    && Count(Below(), q) > 0
  }

  // ----- counting -----

  lemma {:induction false} CountAppend<T>(p: T -> bool, s: seq<T>, t: seq<T>)
    ensures Count(p, s + t) == Count(p, s) + Count(p, t)
    decreases |s|
  {
    if s == [] {
      assert s + t == t;
    } else {
      assert (s + t)[1..] == s[1..] + t;
      CountAppend(p, s[1..], t);
    }
  }

  /** Taking one occurrence of x out of t. */
  lemma Remove<T(!new)>(p: T -> bool, x: T, t: seq<T>) returns (u: seq<T>)
    requires x in t
    ensures multiset(t) == multiset{x} + multiset(u)
    ensures Count(p, t) == Count(p, u) + if p(x) then 1 else 0
  {
    var i :| 0 <= i < |t| && t[i] == x;
    u := t[..i] + t[i + 1..];
    assert t == t[..i] + ([x] + t[i + 1..]);
    CountAppend(p, t[..i], [x] + t[i + 1..]);
    CountAppend(p, t[..i], t[i + 1..]);
    assert ([x] + t[i + 1..])[1..] == t[i + 1..];
  }

  lemma {:induction false} CountMonotone<T(!new)>(p: T -> bool, s: seq<T>, t: seq<T>)
    requires multiset(s) <= multiset(t)
    ensures Count(p, s) <= Count(p, t) && |s| <= |t|
    decreases |s|
  {
    if s != [] {
      assert s == [s[0]] + s[1..];
      assert s[0] in multiset(s);
      assert s[0] in multiset(t);
      var u := Remove(p, s[0], t);
      assert multiset(s[1..]) == multiset(s) - multiset{s[0]};
      assert multiset(u) == multiset(t) - multiset{s[0]};
      assert |multiset(t)| == 1 + |multiset(u)|;
      CountMonotone(p, s[1..], u);
    }
  }

  lemma {:induction false} CountNone<T(!new)>(p: T -> bool, s: seq<T>)
    requires forall x :: x in s ==> !p(x)
    ensures Count(p, s) == 0
    decreases |s|
  {
    if s != [] {
      assert forall x :: x in s[1..] ==> x in s;
      CountNone(p, s[1..]);
    }
  }

  lemma {:induction false} CountAll<T(!new)>(p: T -> bool, s: seq<T>)
    requires forall x :: x in s ==> p(x)
    ensures Count(p, s) == |s|
    decreases |s|
  {
    if s != [] {
      assert forall x :: x in s[1..] ==> x in s;
      CountAll(p, s[1..]);
    }
  }

  lemma {:induction false} CountWitness<T(!new)>(p: T -> bool, s: seq<T>) returns (x: T)
    requires Count(p, s) > 0
    ensures x in s && p(x)
    decreases |s|
  {
    if p(s[0]) {
      x := s[0];
    } else {
      x := CountWitness(p, s[1..]);
      assert x in s[1..];
    }
  }

  /** Two sequences that together make up a third. */
  lemma CountSplit<T(!new)>(p: T -> bool, s: seq<T>, a: seq<T>, b: seq<T>)
    requires multiset(s) == multiset(a) + multiset(b)
    ensures Count(p, s) == Count(p, a) + Count(p, b) && |s| == |a| + |b|
  {
    CountAppend(p, a, b);
    assert multiset(a + b) == multiset(s);
    CountMonotone(p, s, a + b);
    CountMonotone(p, a + b, s);
  }

  lemma {:induction false} CountByKind(ws: seq<Worker>)
    ensures Count(NORMAL, ws) + Count(RESERVED, ws) == |ws|
    decreases |ws|
  {
    if ws != [] {
      CountByKind(ws[1..]);
    }
  }

  lemma {:induction false} CountBySign<J>(q: seq<Item<J>>)
    ensures Count(Zero(), q) + Count(Above(), q) + Count(Below(), q) == |q|
    ensures Count(NonZero(), q) == Count(Above(), q) + Count(Below(), q)
    decreases |q|
  {
    if q != [] {
      CountBySign(q[1..]);
    }
  }

  /** Items of priority zero sit on normal workers. */
  lemma {:induction false} ZerosOnNormals<J(!new)>(a: seq<Start<J>>)
    requires AllEligible(a)
    ensures Count(Zero(), Items(a)) <= Count(NORMAL, Workers(a))
    ensures Count(RESERVED, Workers(a)) <= Count(NonZero(), Items(a))
    decreases |a|
  {
    if a != [] {
      assert a[0] in a;
      assert forall s :: s in a[1..] ==> s in a;
      ZerosOnNormals(a[1..]);
      assert Items(a)[1..] == Items(a[1..]) && Workers(a)[1..] == Workers(a[1..]);
    }
  }

  /** No assignment can be larger than this. */
  lemma AssignmentBound<J(!new)>(a: seq<Start<J>>, q: seq<Item<J>>, ws: seq<Worker>)
    requires Assignment(a, q, ws)
    ensures |a| <= |q| && |a| <= |ws| && |a| <= Count(NonZero(), q) + Count(NORMAL, ws)
  {
    hide Count;
    CountMonotone(NonZero(), Items(a), q);
    CountMonotone(NORMAL, Workers(a), ws);
    CountBySign(Items(a));
    ZerosOnNormals(a);
  }

  lemma OutcomeIsAssignment<J(!new)>(q: seq<Item<J>>, ws: seq<Worker>, q': seq<Item<J>>, ws': seq<Worker>, st: seq<Start<J>>)
    requires Outcome(q, ws, q', ws', st)
    ensures Assignment(st, q, ws) && |q| == |st| + |q'| && |ws| == |st| + |ws'|
  {
    assert |multiset(q)| == |multiset(Items(st))| + |multiset(q')|;
    assert |multiset(ws)| == |multiset(Workers(st))| + |multiset(ws')|;
  }

  // ----- the three ways a dispatch ends -----

  lemma {:induction false} ReservedStart<J(!new)>(st: seq<Start<J>>) returns (s: Start<J>)
    requires AllEligible(st) && Count(RESERVED, Workers(st)) > Count(Above(), Items(st))
    ensures s in st && s.item.priority < 0
    decreases |st|
  {
    assert Items(st)[1..] == Items(st[1..]) && Workers(st)[1..] == Workers(st[1..]);
    assert st[0] in st;
    if st[0].item.priority < 0 {
      s := st[0];
    } else {
      assert forall x :: x in st[1..] ==> x in st;
      s := ReservedStart(st[1..]);
    }
  }

  /** With every worker taken, or no work left, nothing was stranded. */
  lemma NotStranded<J(!new)>(q: seq<Item<J>>, ws: seq<Worker>, q': seq<Item<J>>, ws': seq<Worker>, st: seq<Start<J>>)
    requires Outcome(q, ws, q', ws', st) && (q' == [] || ws' == [])
    ensures !Stranded(q, ws)
  {
    hide Count, Stuck;
    CountSplit(Zero(), q, Items(st), q');
    CountSplit(NORMAL, ws, Workers(st), ws');
    CountSplit(RESERVED, ws, Workers(st), ws');
    CountSplit(Above(), q, Items(st), q');
    ZerosOnNormals(st);
    CountNone(Zero<J>(), []);
    CountNone(NORMAL, []);
    CountNone(RESERVED, []);
    if q' != [] && Stranded(q, ws) {
      var s := ReservedStart(st);
      forall i | i in q'
        ensures !Zero()(i)
      {
      }
      CountNone(Zero(), q');
    }
  }

  /** Only reserved workers are left, and work of priority zero waits: positives took reserved workers, zeros took
      every normal one. */
  lemma LeftoverCounts<J(!new)>(q: seq<Item<J>>, ws: seq<Worker>, q': seq<Item<J>>, ws': seq<Worker>, st: seq<Start<J>>)
    requires Outcome(q, ws, q', ws', st) && q' != [] && ws' != []
    ensures |st| == Count(Above(), q) + Count(NORMAL, ws)
    ensures Count(Zero(), q) > Count(NORMAL, ws) && Count(Above(), q) < Count(RESERVED, ws)
    ensures Count(Below(), q) == Count(Below(), q')
  {
    hide Count;
    var z :| z in q' && z.priority == 0;
    CountSplit(Zero(), q, Items(st), q');
    CountSplit(Above(), q, Items(st), q');
    CountSplit(Below(), q, Items(st), q');
    CountSplit(NORMAL, ws, Workers(st), ws');
    CountSplit(RESERVED, ws, Workers(st), ws');
    CountNone(Above(), q');
    CountNone(NORMAL, ws');
    CountAll(RESERVED, ws');
    CountBySign(Items(st));
    NoneBelow(st, z.priority);
    assert ws'[0] in ws';
    PositivesOnReserved(st);
    CountPositive(Zero(), q', z);
  }

  lemma CountPositive<T(!new)>(p: T -> bool, s: seq<T>, x: T)
    requires x in s && p(x)
    ensures Count(p, s) > 0
  {
    var u := Remove(p, x, s);
  }

  lemma {:induction false} NoneBelow<J(!new)>(st: seq<Start<J>>, floor: int)
    requires floor == 0 && forall s :: s in st ==> s.item.priority >= floor
    ensures Count(Below(), Items(st)) == 0
    decreases |st|
  {
    if st != [] {
      assert st[0] in st;
      assert forall x :: x in st[1..] ==> x in st;
      NoneBelow(st[1..], floor);
      assert Items(st)[1..] == Items(st[1..]);
    }
  }

  lemma {:induction false} PositivesOnReserved<J(!new)>(st: seq<Start<J>>)
    requires AllEligible(st) && forall s :: s in st ==> s.item.priority >= 0
    requires forall s :: s in st ==> s.item.priority > 0 ==> s.worker.isReserved
    ensures Count(Above(), Items(st)) == Count(RESERVED, Workers(st))
    ensures Count(Zero(), Items(st)) == Count(NORMAL, Workers(st))
    decreases |st|
  {
    if st != [] {
      assert st[0] in st;
      assert forall x :: x in st[1..] ==> x in st;
      PositivesOnReserved(st[1..]);
      assert Items(st)[1..] == Items(st[1..]) && Workers(st)[1..] == Workers(st[1..]);
    }
  }

  /** A waiting item of negative priority could have had a reserved worker that stayed idle. */
  lemma BetterAssignment<J(!new)>(q: seq<Item<J>>, ws: seq<Worker>, q': seq<Item<J>>, ws': seq<Worker>, st: seq<Start<J>>)
    requires Outcome(q, ws, q', ws', st) && ws' != [] && Count(Below(), q') > 0
    ensures !Optimal(st, q, ws)
  {
    hide Count, Stuck, Items, Workers;
    var n := CountWitness(Below(), q');
    var s := Start(n, ws'[0]);
    ConsStart(s, st);
    OneMore(multiset(q), multiset(Items(st)), q', n);
    OneMore(multiset(ws), multiset(Workers(st)), ws', ws'[0]);
    assert AllEligible([s] + st);
    assert Assignment([s] + st, q, ws);
  }

  lemma OneMore<T(!new)>(all: multiset<T>, part: multiset<T>, rest: seq<T>, x: T)
    requires all == part + multiset(rest) && x in rest
    ensures multiset{x} + part <= all
  {
    assert x in multiset(rest);
  }

  /** Each dispatch launches as many items as any assignment could, exactly when no work is stranded. */
  lemma OptimalIffNotStranded<J(!new)>(q: seq<Item<J>>, ws: seq<Worker>, q': seq<Item<J>>, ws': seq<Worker>,
                                       st: seq<Start<J>>)
    requires Outcome(q, ws, q', ws', st)
    ensures Optimal(st, q, ws) <==> !Stranded(q, ws)
  {
    hide Count, Outcome, Assignment;
    OutcomeIsAssignment(q, ws, q', ws', st);
    if q' == [] || ws' == [] {
      NotStranded(q, ws, q', ws', st);
      forall a | Assignment(a, q, ws)
        ensures |a| <= |st|
      {
        AssignmentBound(a, q, ws);
      }
    } else {
      LeftoverCounts(q, ws, q', ws', st);
      CountBySign(q);
      if Count(Below(), q) > 0 {
        BetterAssignment(q, ws, q', ws', st);
      } else {
        forall a | Assignment(a, q, ws)
          ensures |a| <= |st|
        {
          AssignmentBound(a, q, ws);
        }
      }
    }
  }

  /** With priorities that are not negative every dispatch is optimal and leaves no item an idle worker could take. */
  lemma NonNegativeIsOptimal<J(!new)>(q: seq<Item<J>>, ws: seq<Worker>, q': seq<Item<J>>, ws': seq<Worker>,
                                      st: seq<Start<J>>)
    requires Outcome(q, ws, q', ws', st) && forall i :: i in q ==> i.priority >= 0
    ensures Optimal(st, q, ws)
    ensures forall i, w :: i in q' && w in ws' ==> !Eligible(w, i)
  {
    CountNone(Below(), q);
    OptimalIffNotStranded(q, ws, q', ws', st);
    forall i, w | i in q' && w in ws'
      ensures !Eligible(w, i)
    {
      InMultiset(i, q, multiset(Items(st)), q');
    }
  }

  const THREE: seq<Item<int>> := [Item(0, 0), Item(1, 0), Item(2, -1)]
  const TWO: seq<Worker> := [Worker(true), Worker(false)]

  lemma ThreeOnTwo()
    ensures Assign(THREE, TWO) == Result([Start(Item(0, 0), Worker(false))], [Item(2, -1), Item(1, 0)], [Worker(true)])
  {
    assert THREE[1..] == [Item(1, 0), Item(2, -1)] && TWO[1..] == [Worker(false)];
    assert [Item(1, 0), Item(2, -1)][1..] == [Item(2, -1)];
    assert FirstFit(TWO, THREE[0]) == 1;
    assert TWO[2..] + TWO[..1] == [Worker(true)];
    assert FirstFit([Worker(true)], THREE[1]) == 1;
  }

  lemma ThreeAreStranded()
    ensures Stranded(THREE, TWO)
  {
    assert THREE == [Item(0, 0)] + ([Item(1, 0)] + [Item(2, -1)]);
    CountAppend(Zero(), [Item(0, 0)], [Item(1, 0)] + [Item(2, -1)]);
    CountPositive(Below(), THREE, Item(2, -1));
    CountNone(Above(), THREE);
  }

  /** Two items of priority zero and one below it, one normal and one reserved worker: the reserved worker idles
      though the negative item could run on it. */
  lemma StrandedExample()
    ensures Descending(THREE) && ReservedFirst(TWO)
    ensures Assign(THREE, TWO) == Result([Start(Item(0, 0), Worker(false))], [Item(2, -1), Item(1, 0)], [Worker(true)])
    ensures !Optimal(Assign(THREE, TWO).started, THREE, TWO)
  {
    hide Optimal, Outcome, Stranded, Assign;
    AssignOutcome(THREE, TWO);
    var r := Assign(THREE, TWO);
    OptimalIffNotStranded(THREE, TWO, r.queue, r.idle, r.started);
    ThreeAreStranded();
    ThreeOnTwo();
  }
}
