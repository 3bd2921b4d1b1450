/** `for_each_merged_event`: two ordered event logs visited as one stream. */
module MergedEvents {
  import opened Prelude
  import opened Sorting

  datatype Event = Event(id: string, createdAt: string, payload: string)

  /** `ORDER BY created_at ASC, id ASC`. */
  predicate EventBefore(a: Event, b: Event) {
    Before(a.createdAt, b.createdAt) || (a.createdAt == b.createdAt && Before(a.id, b.id))
  }

  lemma EventOrder()
    ensures StrictWeakOrder(EventBefore)
  {
    hide Before;
    forall a, b, c: Event
      ensures !EventBefore(a, a)
      ensures EventBefore(a, b) && EventBefore(b, c) ==> EventBefore(a, c)
      ensures EventBefore(a, c) ==> EventBefore(a, b) || EventBefore(b, c)
    {
      BeforeLaws(a.id, b.id, c.id);
      BeforeLaws(a.createdAt, b.createdAt, c.createdAt);
    }
  }

  predicate UniqueIds(log: seq<Event>) {
    forall i, j :: 0 <= i < j < |log| ==> log[i].id != log[j].id
  }

  /** A log as its query returns it. */
  ghost predicate OrderedLog(log: seq<Event>) {
    StrictlyAscending(EventBefore, log) && UniqueIds(log)
  }

  function IdsOf(log: seq<Event>): set<string> {
    set e | e in log :: e.id
  }

  /** What is still to be visited; `owned` are the ids of the whole second log, which wins them. */
  function Merged(first: seq<Event>, second: seq<Event>, owned: set<string>): seq<Event>
    decreases |first| + |second|
  {
    if first == [] then second
    else if second != [] && EventBefore(second[0], first[0]) then [second[0]] + Merged(first, second[1..], owned)
    else if second != [] && !EventBefore(first[0], second[0]) then [second[0]] + Merged(first[1..], second[1..], owned)
    else if first[0].id in owned then Merged(first[1..], second, owned)
    else [first[0]] + Merged(first[1..], second, owned)
  }

  predicate InMerge(first: seq<Event>, second: seq<Event>, owned: set<string>, e: Event) {
    e in second || (e in first && e.id !in owned)
  }

  lemma SameKeySameId(a: Event, b: Event)
    requires !EventBefore(a, b) && !EventBefore(b, a)
    ensures a.id == b.id && a.createdAt == b.createdAt
  {
    hide Before;
    BeforeLaws(a.id, b.id, a.id);
    BeforeLaws(a.createdAt, b.createdAt, a.createdAt);
  }

  lemma {:induction false} MergedElements(first: seq<Event>, second: seq<Event>, owned: set<string>)
    requires IdsOf(second) <= owned
    ensures forall e :: e in Merged(first, second, owned) <==> InMerge(first, second, owned, e)
    decreases |first| + |second|
  {
    hide EventBefore;
    if first != [] {
      var rest := if second == [] then [] else second[1..];
      assert first == [first[0]] + first[1..];
      if second != [] {
        assert second == [second[0]] + second[1..];
        assert second[0].id in owned;
        if EventBefore(second[0], first[0]) {
          MergedElements(first, second[1..], owned);
        } else if !EventBefore(first[0], second[0]) {
          SameKeySameId(first[0], second[0]);
          MergedElements(first[1..], second[1..], owned);
        } else {
          MergedElements(first[1..], second, owned);
        }
      } else {
        MergedElements(first[1..], second, owned);
      }
    }
  }

  ghost predicate HeadBefore(e: Event, log: seq<Event>) {
    forall i :: 0 <= i < |log| ==> EventBefore(e, log[i])
  }

  lemma AscendingCons(e: Event, log: seq<Event>)
    requires HeadBefore(e, log) && StrictlyAscending(EventBefore, log)
    ensures StrictlyAscending(EventBefore, [e] + log)
  {
    hide EventBefore;
  }

  lemma AscendingTail(log: seq<Event>)
    requires log != [] && StrictlyAscending(EventBefore, log)
    ensures StrictlyAscending(EventBefore, log[1..]) && HeadBefore(log[0], log[1..])
  {
    hide EventBefore;
  }

  lemma MergedAfter(e: Event, first: seq<Event>, second: seq<Event>, owned: set<string>)
    requires IdsOf(second) <= owned && HeadBefore(e, first) && HeadBefore(e, second)
    ensures HeadBefore(e, Merged(first, second, owned))
  {
    hide EventBefore, Merged;
    MergedElements(first, second, owned);
    var m := Merged(first, second, owned);
    forall i | 0 <= i < |m|
      ensures EventBefore(e, m[i])
    {
      assert m[i] in m && InMerge(first, second, owned, m[i]);
    }
  }

  lemma HeadBeforeThrough(a: Event, b: Event, log: seq<Event>)
    requires EventBefore(a, b) && HeadBefore(b, log)
    ensures HeadBefore(a, log)
    ensures HeadBefore(a, [b] + log)
  {
    hide EventBefore;
    EventOrder();
  }

  lemma NothingAfter(e: Event)
    ensures HeadBefore(e, [])
  {
  }

  lemma TiedHead(a: Event, b: Event, log: seq<Event>)
    requires !EventBefore(a, b) && !EventBefore(b, a) && HeadBefore(a, log)
    ensures HeadBefore(b, log)
  {
    hide EventBefore;
    EventOrder();
  }

  lemma {:induction false} MergedAscends(first: seq<Event>, second: seq<Event>, owned: set<string>)
    requires IdsOf(second) <= owned
    requires StrictlyAscending(EventBefore, first) && StrictlyAscending(EventBefore, second)
    ensures StrictlyAscending(EventBefore, Merged(first, second, owned))
    decreases |first| + |second|
  {
    hide EventBefore, HeadBefore, StrictlyAscending;
    if first == [] {
    } else if second == [] {
      AscendingTail(first);
      MergedAscends(first[1..], [], owned);
      NothingAfter(first[0]);
      MergedAfter(first[0], first[1..], [], owned);
      AscendingCons(first[0], Merged(first[1..], second, owned));
    } else {
      AscendingTail(first);
      AscendingTail(second);
      assert first == [first[0]] + first[1..] && second == [second[0]] + second[1..];
      assert IdsOf(second[1..]) <= owned;
      if EventBefore(second[0], first[0]) {
        MergedAscends(first, second[1..], owned);
        HeadBeforeThrough(second[0], first[0], first[1..]);
        MergedAfter(second[0], first, second[1..], owned);
        AscendingCons(second[0], Merged(first, second[1..], owned));
      } else if !EventBefore(first[0], second[0]) {
        MergedAscends(first[1..], second[1..], owned);
        TiedHead(first[0], second[0], first[1..]);
        MergedAfter(second[0], first[1..], second[1..], owned);
        AscendingCons(second[0], Merged(first[1..], second[1..], owned));
      } else {
        MergedAscends(first[1..], second, owned);
        HeadBeforeThrough(first[0], second[0], second[1..]);
        MergedAfter(first[0], first[1..], second, owned);
        AscendingCons(first[0], Merged(first[1..], second, owned));
      }
    }
  }

  lemma MergedRowUnique(first: seq<Event>, second: seq<Event>, a: Event, b: Event)
    requires UniqueIds(first) && UniqueIds(second)
    requires InMerge(first, second, IdsOf(second), a) && InMerge(first, second, IdsOf(second), b) && a.id == b.id
    ensures a == b
  {
    var log := if a in second then second else first;
    var i :| 0 <= i < |log| && log[i] == a;
    var j :| 0 <= j < |log| && log[j] == b;
  }

  /** The stream of two ordered logs: strictly increasing in time and id, each id of the union exactly
      once, the second log's row for every id it has, the first log's row for the others. */
  lemma MergedMeaning(first: seq<Event>, second: seq<Event>)
    requires OrderedLog(first) && OrderedLog(second)
    ensures StrictlyAscending(EventBefore, Merged(first, second, IdsOf(second)))
    ensures UniqueIds(Merged(first, second, IdsOf(second)))
    ensures IdsOf(Merged(first, second, IdsOf(second))) == IdsOf(first) + IdsOf(second)
    ensures forall e :: e in Merged(first, second, IdsOf(second)) <==> InMerge(first, second, IdsOf(second), e)
  {
    hide EventBefore, Merged;
    var owned := IdsOf(second);
    var m := Merged(first, second, owned);
    MergedAscends(first, second, owned);
    MergedElements(first, second, owned);
    EventOrder();
    forall i, j | 0 <= i < j < |m|
      ensures m[i].id != m[j].id
    {
      assert EventBefore(m[i], m[j]) && m[i] != m[j];
      assert InMerge(first, second, owned, m[i]) && InMerge(first, second, owned, m[j]);
      if m[i].id == m[j].id {
        MergedRowUnique(first, second, m[i], m[j]);
        assert false;
      }
    }
    forall id
      ensures id in IdsOf(m) <==> id in IdsOf(first) + IdsOf(second)
    {
      if id in IdsOf(first) && id !in owned {
        var e :| e in first && e.id == id;
        assert InMerge(first, second, owned, e);
      } else if id in owned {
        var e :| e in second && e.id == id;
        assert InMerge(first, second, owned, e);
      }
    }
  }

  /** The merge is the only stream with that order and those rows. */
  lemma MergedIsDetermined(first: seq<Event>, second: seq<Event>, stream: seq<Event>)
    requires OrderedLog(first) && OrderedLog(second)
    requires StrictlyAscending(EventBefore, stream)
    requires forall e :: e in stream <==> InMerge(first, second, IdsOf(second), e)
    ensures stream == Merged(first, second, IdsOf(second))
  {
    hide EventBefore, Merged;
    EventOrder();
    MergedMeaning(first, second);
    StrictlyAscendingUnique(EventBefore, stream, Merged(first, second, IdsOf(second)));
  }

  /** The caller's callback: it may fail on any event, and keeps what it has taken. */
  class Visitor {
    var visited: seq<Event>
    ghost var refusals: nat

    constructor ()
      ensures visited == [] && refusals == 0
    {
      visited := [];
      refusals := 0;
    }

    method Visit(e: Event) returns (ok: bool)
      modifies this
      ensures visited == if ok then old(visited) + [e] else old(visited)
      ensures refusals == old(refusals) + if ok then 0 else 1
    {
      ok := *;
      if ok {
        visited := visited + [e];
      } else {
        refusals := refusals + 1;
      }
    }
  }

  /** The head taken from a cursor and the rows behind it. */
  function Pending(head: Option<Event>, rows: seq<Event>): seq<Event> {
    if head.Some? then [head.value] + rows else []
  }

  lemma PendingAfterNext(rows: seq<Event>)
    ensures rows == [] ==> Pending(None, []) == rows
    ensures rows != [] ==> Pending(Some(rows[0]), rows[1..]) == rows
  {
  }

  /** The rows of a query that are still to be fetched; a fetch may fail. */
  class Cursor {
    var rows: seq<Event>
    ghost var failures: nat

    constructor (rows: seq<Event>)
      ensures this.rows == rows && failures == 0
    {
      this.rows := rows;
      failures := 0;
    }

    /** `next_encoded_event`: the next row, if any. */
    method Next() returns (ok: bool, head: Option<Event>)
      modifies this
      ensures failures == old(failures) + if ok then 0 else 1
      ensures ok ==> Pending(head, rows) == old(rows) && (head.None? ==> rows == [])
      ensures ok ==> (head.Some? <==> old(rows) != [])
      ensures |rows| <= |old(rows)| && (ok && head.Some? ==> |rows| < |old(rows)|)
    {
      ok := *;
      if !ok {
        failures := failures + 1;
        return false, None;
      }
      if rows == [] {
        return true, None;
      }
      PendingAfterNext(rows);
      head := Some(rows[0]);
      rows := rows[1..];
    }
  }

  predicate Takes(head: Option<Event>, other: Option<Event>) {
    head.Some? && (other.None? || !EventBefore(other.value, head.value))
  }

  /** The event the loop hands to the visitor: the right head on a tie, nothing for an owned left head. */
  function Visits(left: Option<Event>, right: Option<Event>, owned: set<string>): Option<Event>
    requires left.Some? || right.Some?
  {
    if Takes(right, left) then right else if left.Some? && left.value.id !in owned then left else None
  }

  lemma MergeStep(left: Option<Event>, first: seq<Event>, right: Option<Event>, second: seq<Event>, owned: set<string>)
    requires left.Some? || right.Some?
    requires (left.None? ==> first == []) && (right.None? ==> second == [])
    ensures var visit := Visits(left, right, owned);
            Merged(Pending(left, first), Pending(right, second), owned) ==
            (if visit.Some? then [visit.value] else [])
            + Merged(if Takes(left, right) then first else Pending(left, first),
                     if Takes(right, left) then second else Pending(right, second), owned)
  {
    hide EventBefore;
    assert left.Some? ==> ([left.value] + first)[1..] == first;
    assert right.Some? ==> ([right.value] + second)[1..] == second;
    if left.Some? && right.Some? {
      EventOrder();
    }
  }

  lemma VisitStep(whole: seq<Event>, count: nat, visit: Option<Event>, rest: seq<Event>)
    requires count <= |whole| && whole[count..] == (if visit.Some? then [visit.value] else []) + rest
    ensures visit.None? ==> whole[count..] == rest
    ensures visit.Some? ==>
              && count < |whole| && whole[count + 1..] == rest
              && whole[..count + 1] == whole[..count] + [visit.value]
  {
    if visit.Some? {
      assert whole[count..][0] == whole[count] && whole[count..][1..] == whole[count + 1..];
    }
  }

  lemma OneIsTaken(left: Option<Event>, right: Option<Event>, owned: set<string>)
    requires left.Some? || right.Some?
    ensures Takes(left, right) || Takes(right, left)
    ensures (Takes(left, right) ==> left.Some?) && (Takes(right, left) ==> right.Some?)
  {
    hide EventBefore;
    EventOrder();
  }

  lemma NothingPending(owned: set<string>)
    ensures Merged(Pending(None, []), Pending(None, []), owned) == []
  {
  }

  function Left(head: Option<Event>, rows: seq<Event>): nat {
    |rows| + if head.Some? then 1 else 0
  }

  /** A taken head is replaced by the next row; the other one is put back. */
  method Refill(c: Cursor, head: Option<Event>, taken: bool) returns (ok: bool, next: Option<Event>)
    requires (taken ==> head.Some?) && (head.None? ==> c.rows == [])
    modifies c
    ensures c.failures == old(c.failures) + if ok then 0 else 1
    ensures ok ==> Pending(next, c.rows) == if taken then old(c.rows) else Pending(head, old(c.rows))
    ensures ok ==> (next.None? ==> c.rows == [])
    ensures Left(next, c.rows) <= Left(head, old(c.rows)) - if ok && taken then 1 else 0
  {
    if taken {
      ok, next := c.Next();
    } else {
      ok, next := true, head;
    }
  }

  /** The source's loop over two heads, either of which may fail to be fetched. It succeeds exactly when no
      fetch and no visit failed, and then the whole merge was visited. A failure, which is the only one,
      leaves exactly a prefix visited, a proper one if it was the visitor's. */
  method ForEachMergedEvent(first: Cursor, second: Cursor, visitor: Visitor) returns (ok: bool, ghost count: nat)
    requires first != second
    modifies first, second, visitor
    ensures var whole := old(Merged(first.rows, second.rows, IdsOf(second.rows)));
            && count <= |whole| && visitor.visited == old(visitor.visited) + whole[..count]
            && (ok ==> count == |whole|)
            && (visitor.refusals != old(visitor.refusals) ==> count < |whole|)
    ensures first.failures + second.failures + visitor.refusals
            == old(first.failures + second.failures + visitor.refusals) + if ok then 0 else 1
    ensures first.failures >= old(first.failures) && second.failures >= old(second.failures)
    ensures visitor.refusals >= old(visitor.refusals)
  {
    hide Takes, Visits, Merged, Pending, IdsOf, EventBefore;
    ghost var start, whole := visitor.visited, Merged(first.rows, second.rows, IdsOf(second.rows));
    count := 0;
    var owned := IdsOf(second.rows);
    var okLeft, left := first.Next();
    if !okLeft {
      return false, count;
    }
    var okRight, right := second.Next();
    if !okRight {
      return false, count;
    }
    while left.Some? || right.Some?
      invariant visitor.refusals == old(visitor.refusals)
      invariant first.failures == old(first.failures) && second.failures == old(second.failures)
      invariant (left.None? ==> first.rows == []) && (right.None? ==> second.rows == [])
      invariant 0 <= count <= |whole| && visitor.visited == start + whole[..count]
      invariant whole[count..] == Merged(Pending(left, first.rows), Pending(right, second.rows), owned)
      decreases Left(left, first.rows) + Left(right, second.rows)
    {
      MergeStep(left, first.rows, right, second.rows, owned);
      var takeLeft, takeRight := Takes(left, right), Takes(right, left);
      var visit := Visits(left, right, owned);
      OneIsTaken(left, right, owned);
      VisitStep(whole, count, visit, Merged(if takeLeft then first.rows else Pending(left, first.rows),
                                            if takeRight then second.rows else Pending(right, second.rows), owned));
      if visit.Some? {
        var taken := visitor.Visit(visit.value);
        if !taken {
          return false, count;
        }
        count := count + 1;
      }
      okLeft, left := Refill(first, left, takeLeft);
      if !okLeft {
        return false, count;
      }
      okRight, right := Refill(second, right, takeRight);
      if !okRight {
        return false, count;
      }
    }
    NothingPending(owned);
    ok := true;
  }
}
