/** The retry queue that restores tables whose dependencies are not known (table.py, _restore_table_objects). */
module RestoreQueue {
  import opened BackupStore

  /** The queue, the failures since the last success, and what has been done so far. */
  datatype Loop = Loop(unprocessed: seq<TableKey>, errors: seq<TableKey>, restored: seq<TableKey>, attempts: nat)

  /** Whether an attempt succeeds: it may depend on when it is made and on what has been restored. */
  type Oracle = (nat, set<TableKey>, TableKey) -> bool

  function Elements(s: seq<TableKey>): set<TableKey> {
    set t | t in s
  }

  /** One turn of the loop. */
  function Turn(ok: Oracle, l: Loop): Loop
    requires l.unprocessed != []
  {
    var table, rest := l.unprocessed[0], l.unprocessed[1..];
    if ok(l.attempts, Elements(l.restored), table) then
      Loop(rest, [], l.restored + [table], l.attempts + 1)
    else
      Loop(rest + [table], l.errors + [table], l.restored, l.attempts + 1)
  }

  /** The loop is over: nothing is left, or everything that is left has failed since the last success. */
  predicate Stops(l: Loop) {
    l.unprocessed == [] || |l.errors| > |l.unprocessed|
  }

  function Start(tables: seq<TableKey>): Loop {
    Loop(tables, [], [], 0)
  }

  /** The loop after `n` turns, or where it stopped before. */
  function After(ok: Oracle, tables: seq<TableKey>, n: nat): Loop {
    if n == 0 then Start(tables)
    else
      var l := After(ok, tables, n - 1);
      if Stops(l) then l else Turn(ok, l)
  }

  /** With `n` tables queued, at most `n` failures come before a success or `n + 1` before the end. */
  function Attempts(n: nat): nat {
    if n == 0 then 0 else Attempts(n - 1) + n + 1
  }

  lemma {:induction false} AttemptsClosedForm(n: nat)
    ensures Attempts(n) == n * (n + 3) / 2
  {
    if n > 0 {
      AttemptsClosedForm(n - 1);
      assert n * (n + 3) == (n - 1) * (n + 2) + 2 * (n + 1);
    }
  }

  /** Where the loop ends. */
  function Final(ok: Oracle, tables: seq<TableKey>): Loop {
    After(ok, tables, Attempts(|tables|))
  }

  // ---------- what every turn keeps

  /** The errors are the tables at the end of the queue; `n` is the number of tables, `turns` of turns taken. */
  predicate Queued(l: Loop, turns: nat, n: nat) {
    if Stops(l) then Elements(l.errors) == Elements(l.unprocessed) && l.attempts <= Attempts(n)
    else
      && l.attempts == turns && |l.errors| <= |l.unprocessed|
      && l.unprocessed[|l.unprocessed| - |l.errors|..] == l.errors
      && Attempts(|l.unprocessed|) - |l.errors| + turns <= Attempts(n)
  }

  lemma TurnKeepsQueue(ok: Oracle, l: Loop, turns: nat, n: nat)
    requires Queued(l, turns, n) && !Stops(l)
    ensures Queued(Turn(ok, l), turns + 1, n)
  {
    var m := Turn(ok, l);
    if ok(l.attempts, Elements(l.restored), l.unprocessed[0]) {
      SuccessKeepsQueue(l, m, turns, n);
    } else {
      FailureKeepsQueue(l, m, turns, n);
    }
  }

  lemma SuccessKeepsQueue(l: Loop, m: Loop, turns: nat, n: nat)
    requires Queued(l, turns, n) && !Stops(l)
    requires |m.unprocessed| == |l.unprocessed| - 1 && m.errors == [] && m.attempts == l.attempts + 1
    ensures Queued(m, turns + 1, n)
  {
    assert Attempts(|l.unprocessed|) == Attempts(|m.unprocessed|) + |l.unprocessed| + 1;
    assert m.unprocessed[|m.unprocessed|..] == [];
  }

  lemma FailureKeepsQueue(l: Loop, m: Loop, turns: nat, n: nat)
    requires Queued(l, turns, n) && !Stops(l)
    requires m.unprocessed == l.unprocessed[1..] + [l.unprocessed[0]] && m.errors == l.errors + [l.unprocessed[0]]
    requires m.attempts == l.attempts + 1
    ensures Queued(m, turns + 1, n)
  {
    assert |m.unprocessed| == |l.unprocessed|;
    if |l.errors| == |l.unprocessed| {
      AllHaveFailed(l.unprocessed, l.errors, m.unprocessed, m.errors);
      assert Stops(m);
    } else {
      TailRotates(l.unprocessed, l.errors, m.unprocessed, m.errors);
    }
  }

  lemma AllHaveFailed(queue: seq<TableKey>, tail: seq<TableKey>, rotated: seq<TableKey>, longer: seq<TableKey>)
    requires queue != [] && |tail| == |queue| && queue[|queue| - |tail|..] == tail
    requires rotated == queue[1..] + [queue[0]] && longer == tail + [queue[0]]
    ensures Elements(longer) == Elements(rotated)
  {
    assert tail == queue;
    SameElements(queue);
  }

  /** Moving the head of the queue to its end lengthens the failed tail by it. */
  lemma TailRotates(queue: seq<TableKey>, tail: seq<TableKey>, rotated: seq<TableKey>, longer: seq<TableKey>)
    requires |tail| < |queue| && queue[|queue| - |tail|..] == tail
    requires rotated == queue[1..] + [queue[0]] && longer == tail + [queue[0]]
    ensures rotated[|rotated| - |longer|..] == longer
  {
    var from := |queue| - |tail|;
    forall j | 0 <= j < |tail|
      ensures rotated[from - 1 + j] == longer[j]
    {
      assert queue[from..][j] == queue[from + j];
    }
  }

  lemma SameElements(s: seq<TableKey>)
    requires s != []
    ensures Elements(s + [s[0]]) == Elements(s) == Elements(s[1..] + [s[0]])
  {
    assert s == [s[0]] + s[1..];
  }

  lemma {:induction false} AlwaysQueued(ok: Oracle, tables: seq<TableKey>, turns: nat)
    ensures Queued(After(ok, tables, turns), turns, |tables|)
  {
    if turns > 0 {
      AlwaysQueued(ok, tables, turns - 1);
      var l := After(ok, tables, turns - 1);
      if !Stops(l) {
        TurnKeepsQueue(ok, l, turns - 1, |tables|);
      }
    }
  }

  lemma {:induction false} StaysStopped(ok: Oracle, tables: seq<TableKey>, turns: nat, more: nat)
    requires Stops(After(ok, tables, turns)) && turns <= more
    ensures After(ok, tables, more) == After(ok, tables, turns)
    decreases more
  {
    if turns < more {
      StaysStopped(ok, tables, turns, more - 1);
    }
  }

  /** The loop always ends in time. */
  lemma EndsInTime(ok: Oracle, tables: seq<TableKey>, turns: nat)
    ensures Stops(After(ok, tables, turns)) ==> After(ok, tables, turns) == Final(ok, tables)
    ensures !Stops(After(ok, tables, turns)) ==> turns < Attempts(|tables|)
    ensures Stops(Final(ok, tables)) && Elements(Final(ok, tables).errors) == Elements(Final(ok, tables).unprocessed)
  {
    var last := Attempts(|tables|);
    AlwaysQueued(ok, tables, turns);
    AlwaysQueued(ok, tables, last);
    var l := After(ok, tables, turns);
    if Stops(l) {
      if turns <= last {
        StaysStopped(ok, tables, turns, last);
      } else {
        StaysStopped(ok, tables, last, turns);
      }
    }
  }

  /**
   * The loop itself. With keep_going the failed tables are returned, without it they are reported by an exception:
   * `raised` says which.
   */
  method RestoreTableObjects(ok: Oracle, tables: seq<TableKey>, keepGoing: bool)
    returns (restored: seq<TableKey>, failed: set<TableKey>, attempts: nat, raised: bool)
    ensures var end := Final(ok, tables);
            restored == end.restored && failed == Elements(end.unprocessed) && attempts == end.attempts
    ensures raised <==> failed != {} && !keepGoing
  {
    var unprocessed, errors := tables, [];
    restored, attempts := [], 0;
    EndsInTime(ok, tables, 0);
    while unprocessed != []
      invariant Loop(unprocessed, errors, restored, attempts) == After(ok, tables, attempts)
      invariant |errors| <= |unprocessed|
      invariant unprocessed == [] ==> After(ok, tables, attempts) == Final(ok, tables)
      decreases Attempts(|tables|) - attempts
    {
      EndsInTime(ok, tables, attempts);
      EndsInTime(ok, tables, attempts + 1);
      var table := unprocessed[0];
      unprocessed := unprocessed[1..];
      var succeeded := ok(attempts, Elements(restored), table);
      attempts := attempts + 1;
      if !succeeded {
        errors := errors + [table];
        unprocessed := unprocessed + [table];
        if |errors| > |unprocessed| {
          break;
        }
      } else {
        errors := [];
        restored := restored + [table];
      }
    }
    failed := Elements(errors);
    raised := failed != {} && !keepGoing;
  }

  // ---------- for every oracle

  lemma {:induction false} NothingLost(ok: Oracle, tables: seq<TableKey>, turns: nat)
    ensures var l := After(ok, tables, turns); multiset(l.restored) + multiset(l.unprocessed) == multiset(tables)
  {
    if turns > 0 {
      NothingLost(ok, tables, turns - 1);
      var l := After(ok, tables, turns - 1);
      if !Stops(l) {
        TurnLosesNothing(ok, l);
      }
    }
  }

  lemma TurnLosesNothing(ok: Oracle, l: Loop)
    requires l.unprocessed != []
    ensures var m := Turn(ok, l);
            multiset(m.restored) + multiset(m.unprocessed) == multiset(l.restored) + multiset(l.unprocessed)
  {
    assert l.unprocessed == [l.unprocessed[0]] + l.unprocessed[1..];
  }

  /** With any oracle `n` tables take at most n(n+3)/2 attempts, and none gets lost or restored twice. */
  lemma AttemptsBounded(ok: Oracle, tables: seq<TableKey>)
    ensures var end := Final(ok, tables);
            && end.attempts <= |tables| * (|tables| + 3) / 2
            && multiset(end.restored) + multiset(end.unprocessed) == multiset(tables)
  {
    NothingLost(ok, tables, Attempts(|tables|));
    AlwaysQueued(ok, tables, Attempts(|tables|));
    EndsInTime(ok, tables, 0);
    AttemptsClosedForm(|tables|);
  }

  // ---------- for dependencies

  /** A table can be restored once enough others are; restoring more never hurts. */
  ghost predicate Monotone(can: (set<TableKey>, TableKey) -> bool) {
    forall r, s, t | r <= s && can(r, t) :: can(s, t)
  }

  function Timeless(can: (set<TableKey>, TableKey) -> bool): Oracle {
    (_, restored, table) => can(restored, table)
  }

  /** Nothing outside `closed` can be restored on top of it. */
  ghost predicate Closed(can: (set<TableKey>, TableKey) -> bool, tables: set<TableKey>, closed: set<TableKey>) {
    forall t | t in tables && can(closed, t) :: t in closed
  }

  /** Nothing is restored that is not in every closed set. */
  lemma {:induction false} StaysWithin(can: (set<TableKey>, TableKey) -> bool, tables: seq<TableKey>, turns: nat,
                                       closed: set<TableKey>)
    requires Monotone(can) && Closed(can, Elements(tables), closed)
    ensures Elements(After(Timeless(can), tables, turns).restored) <= closed
  {
    if turns > 0 {
      StaysWithin(can, tables, turns - 1, closed);
      NothingLost(Timeless(can), tables, turns - 1);
      var l := After(Timeless(can), tables, turns - 1);
      if !Stops(l) {
        assert l.unprocessed[0] in multiset(l.restored) + multiset(l.unprocessed);
        TurnStaysWithin(can, l, Elements(tables), closed);
      }
    }
  }

  lemma TurnStaysWithin(can: (set<TableKey>, TableKey) -> bool, l: Loop, tables: set<TableKey>, closed: set<TableKey>)
    requires Monotone(can) && Closed(can, tables, closed)
    requires l.unprocessed != [] && l.unprocessed[0] in tables && Elements(l.restored) <= closed
    ensures Elements(Turn(Timeless(can), l).restored) <= closed
  {
    assert can(Elements(l.restored), l.unprocessed[0]) ==> can(closed, l.unprocessed[0]);
  }

  predicate FailuresStand(can: (set<TableKey>, TableKey) -> bool, l: Loop) {
    forall t <- l.errors :: !can(Elements(l.restored), t)
  }

  /** Every failure since the last success still stands: nothing has been restored since. */
  lemma {:induction false} AlwaysStand(can: (set<TableKey>, TableKey) -> bool, tables: seq<TableKey>, turns: nat)
    ensures FailuresStand(can, After(Timeless(can), tables, turns))
  {
    if turns > 0 {
      AlwaysStand(can, tables, turns - 1);
      var l := After(Timeless(can), tables, turns - 1);
      if !Stops(l) {
        OneMoreFailure(can, l);
      }
    }
  }

  lemma OneMoreFailure(can: (set<TableKey>, TableKey) -> bool, l: Loop)
    requires l.unprocessed != [] && FailuresStand(can, l)
    ensures FailuresStand(can, Turn(Timeless(can), l))
  {
  }

  /** The least set that holds every table which can be restored on top of it. */
  ghost predicate LeastFixedPoint(can: (set<TableKey>, TableKey) -> bool, tables: set<TableKey>, r: set<TableKey>) {
    r <= tables && Closed(can, tables, r) && forall closed | Closed(can, tables, closed) :: r <= closed
  }

  /** The queue needs no dependency order: it restores everything that can be restored at all. */
  lemma RestoresLeastFixedPoint(can: (set<TableKey>, TableKey) -> bool, tables: seq<TableKey>)
    requires Monotone(can)
    ensures LeastFixedPoint(can, Elements(tables), Elements(Final(Timeless(can), tables).restored))
  {
    var ok, last := Timeless(can), Attempts(|tables|);
    var end := Final(ok, tables);
    NothingLost(ok, tables, last);
    forall t
      ensures t in tables <==> t in end.restored || t in end.unprocessed
    {
      assert t in multiset(tables) <==> t in multiset(end.restored) + multiset(end.unprocessed);
    }
    EndsInTime(ok, tables, 0);
    AlwaysStand(can, tables, last);
    forall t <- end.unprocessed
      ensures !can(Elements(end.restored), t)
    {
      assert t in Elements(end.errors);
    }
    forall closed | Closed(can, Elements(tables), closed)
      ensures Elements(end.restored) <= closed
    {
      StaysWithin(can, tables, last, closed);
    }
  }

  /** Whatever the order of the input, the same tables are restored and the same tables fail. */
  lemma OrderDoesNotMatter(can: (set<TableKey>, TableKey) -> bool, tables: seq<TableKey>, other: seq<TableKey>)
    requires Monotone(can) && Elements(tables) == Elements(other)
    ensures Elements(Final(Timeless(can), tables).restored) == Elements(Final(Timeless(can), other).restored)
  {
    RestoresLeastFixedPoint(can, tables);
    RestoresLeastFixedPoint(can, other);
  }
}
