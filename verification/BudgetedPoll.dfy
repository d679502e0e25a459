/**
 Polling a queue with a budget: one poll drops unwanted items until it finds a wanted one, runs out of items, or has
 dropped `budget` of them, in which case it gives way and is polled again. The polled connection and the event stream
 both read this way. A queue is given by what each item yields, `None` for an item that is dropped.
 */
module BudgetedPoll {
  import opened Wrappers

  /** How many items are dropped before the first wanted one. */
  function Unwanted<R>(items: seq<Option<R>>): (n: nat)
    ensures n <= |items|
    ensures forall k :: 0 <= k < n ==> items[k].None?
    ensures n < |items| ==> items[n].Some?
  {
    if items == [] || items[0].Some? then 0 else 1 + Unwanted(items[1..])
  }

  /** One poll: what it yields, if anything, and how many items it consumes. */
  function PollOnce<R>(items: seq<Option<R>>, budget: nat): (result: (Option<R>, nat))
    ensures result.1 <= |items| && result.1 <= budget
  {
    var n := Unwanted(items);
    if n < Min(|items|, budget) then (items[n], n + 1) else (None, Min(n, budget))
  }

  /** The wanted items, in order. */
  function Wanted<R>(items: seq<Option<R>>): seq<R> {
    if items == [] then [] else Yielded(items[0]) + Wanted(items[1..])
  }

  function Yielded<R>(r: Option<R>): seq<R> {
    if r.Some? then [r.value] else []
  }

  /** Polls in turn, `arrivals[k]` being appended to the queue before poll `k`: what each yields, and what is left. */
  function Polls<R>(queue: seq<Option<R>>, arrivals: seq<seq<Option<R>>>, budget: nat)
    : (result: (seq<Option<R>>, seq<Option<R>>))
    ensures |result.0| == |arrivals|
    decreases |arrivals|
  {
    if arrivals == [] then ([], queue)
    else
      var items := queue + arrivals[0];
      var (r, n) := PollOnce(items, budget);
      var (rs, rest) := Polls(items[n..], arrivals[1..], budget);
      ([r] + rs, rest)
  }

  function Concat<I>(parts: seq<seq<I>>): seq<I> {
    if parts == [] then [] else parts[0] + Concat(parts[1..])
  }

  lemma {:induction false} WantedConcat<R>(a: seq<Option<R>>, b: seq<Option<R>>)
    ensures Wanted(a + b) == Wanted(a) + Wanted(b)
  {
    if a == [] {
      assert a + b == b;
    } else {
      WantedConcat(a[1..], b);
      assert (a + b)[1..] == a[1..] + b && (a + b)[0] == a[0];
      hide Yielded;
      var first, rest := Yielded(a[0]), Wanted(a[1..]);
      assert first + (rest + Wanted(b)) == (first + rest) + Wanted(b);
    }
  }

  lemma WantedCons<R>(r: Option<R>, rs: seq<Option<R>>)
    ensures Wanted([r] + rs) == Yielded(r) + Wanted(rs)
  {
    assert ([r] + rs)[1..] == rs;
  }

  lemma {:induction false} WantedAfterUnwanted<R>(items: seq<Option<R>>, n: nat)
    requires n <= Unwanted(items)
    ensures Wanted(items) == Wanted(items[n..])
  {
    if n > 0 {
      WantedAfterUnwanted(items[1..], n - 1);
      assert items[1..][n - 1..] == items[n..];
    }
  }

  lemma Associative<R>(a: seq<R>, b: seq<R>, c: seq<R>)
    ensures (a + b) + c == a + (b + c)
  {
  }

  /** One poll yields the first wanted item among those it consumes, and drops nothing wanted. */
  lemma PollConserves<R>(items: seq<Option<R>>, budget: nat)
    ensures var (r, n) := PollOnce(items, budget);
      Wanted(items) == Yielded(r) + Wanted(items[n..])
  {
    var (r, n) := PollOnce(items, budget);
    if r.None? {
      assert n <= Unwanted(items) && Yielded(r) == [];
      hide *;
      WantedAfterUnwanted(items, n);
      assert [] + Wanted(items[n..]) == Wanted(items[n..]);
    } else {
      assert n - 1 == Unwanted(items) && r == items[n - 1];
      hide *;
      WantedAfterUnwanted(items, n - 1);
      assert items[n - 1..] == [r] + items[n..];
      WantedCons(r, items[n..]);
    }
  }

  /** The same with more items to come. */
  lemma PollConservesBefore<R>(items: seq<Option<R>>, later: seq<Option<R>>, budget: nat)
    ensures var (r, n) := PollOnce(items, budget);
      Wanted(items + later) == Yielded(r) + Wanted(items[n..] + later)
  {
    var (r, n) := PollOnce(items, budget);
    hide *;
    PollConserves(items, budget);
    WantedConcat(items, later);
    WantedConcat(items[n..], later);
    Associative(Yielded(r), Wanted(items[n..]), Wanted(later));
  }

  /** Over any number of polls and arrivals nothing wanted is lost, repeated or reordered. */
  lemma {:induction false} PollsConserve<R>(queue: seq<Option<R>>, arrivals: seq<seq<Option<R>>>, budget: nat)
    ensures var (rs, rest) := Polls(queue, arrivals, budget);
      Wanted(rs) + Wanted(rest) == Wanted(queue + Concat(arrivals))
    decreases |arrivals|
  {
    if arrivals == [] {
      assert queue + Concat(arrivals) == queue;
    } else {
      var items := queue + arrivals[0];
      var (r, n) := PollOnce(items, budget);
      var later := Concat(arrivals[1..]);
      var (rs, rest) := Polls(items[n..], arrivals[1..], budget);
      assert queue + Concat(arrivals) == items + later;
      hide PollOnce, Wanted, Yielded, Concat;
      PollConservesBefore(items, later, budget);
      PollsConserve(items[n..], arrivals[1..], budget);
      WantedCons(r, rs);
      Associative(Yielded(r), Wanted(rs), Wanted(rest));
    }
  }

  lemma OneBudgetLess(k: nat, budget: nat)
    requires 0 < k
    ensures (k - 1) * budget == k * budget - budget && 0 <= (k - 1) * budget
  {
  }

  /** The first poll yields the first wanted item, if it reaches that far; otherwise it only drops `budget` others. */
  lemma FirstPoll<R>(queue: seq<Option<R>>, arrivals: seq<seq<Option<R>>>, budget: nat)
    requires Unwanted(queue) < |queue| && arrivals != []
    ensures var n, rs := Unwanted(queue), Polls(queue, arrivals, budget).0;
      if n < budget then rs[0] == queue[n]
      else
        var later := (queue + arrivals[0])[budget..];
        && rs == [None] + Polls(later, arrivals[1..], budget).0
        && Unwanted(later) == n - budget < |later| && later[n - budget] == queue[n]
  {
    var n, items := Unwanted(queue), queue + arrivals[0];
    UnwantedInPrefix(queue, arrivals[0]);
    assert items[n] == queue[n];
    if budget <= n {
      UnwantedAfter(items, budget);
      assert PollOnce(items, budget) == (None, budget);
      hide Unwanted, PollOnce;
      assert items[budget..][n - budget] == items[n];
    }
  }

  /** A wanted item comes out of the poll that reaches past the unwanted ones in front of it. */
  lemma {:induction false} ArrivesInPoll<R>(
    queue: seq<Option<R>>, arrivals: seq<seq<Option<R>>>, budget: nat, k: nat)
    requires Unwanted(queue) < |queue| && k < |arrivals|
    requires k * budget <= Unwanted(queue) < k * budget + budget
    ensures var rs := Polls(queue, arrivals, budget).0;
      rs[k] == queue[Unwanted(queue)] && forall i :: 0 <= i < k ==> rs[i].None?
    decreases k
  {
    hide *;
    FirstPoll(queue, arrivals, budget);
    if k > 0 {
      OneBudgetLess(k, budget);
      ArrivesInPoll((queue + arrivals[0])[budget..], arrivals[1..], budget, k - 1);
    }
  }

  lemma QuotientBounds(n: nat, budget: nat)
    requires 0 < budget
    ensures 0 <= n / budget && (n / budget) * budget <= n < (n / budget) * budget + budget
  {
  }

  /**
   A wanted item behind `n` unwanted ones comes out of poll `n / budget`, counted from zero; the polls before it yield
   nothing, and what arrives in the meantime makes no difference.
   */
  lemma ArrivesOnTime<R>(queue: seq<Option<R>>, arrivals: seq<seq<Option<R>>>, budget: nat)
    requires 0 < budget && Unwanted(queue) < |queue| && Unwanted(queue) / budget < |arrivals|
    ensures var n := Unwanted(queue);
      var rs := Polls(queue, arrivals, budget).0;
      && 0 <= n / budget < |rs|
      && rs[n / budget] == queue[n]
      && forall i :: 0 <= i < n / budget ==> rs[i].None?
  {
    var n := Unwanted(queue);
    hide *;
    QuotientBounds(n, budget);
    ArrivesInPoll(queue, arrivals, budget, n / budget);
  }

  lemma {:induction false} UnwantedInPrefix<R>(a: seq<Option<R>>, b: seq<Option<R>>)
    requires Unwanted(a) < |a|
    ensures Unwanted(a + b) == Unwanted(a)
  {
    assert (a + b)[0] == a[0];
    if a[0].None? {
      assert (a + b)[1..] == a[1..] + b;
      UnwantedInPrefix(a[1..], b);
    }
  }

  lemma {:induction false} UnwantedAfter<R>(items: seq<Option<R>>, n: nat)
    requires n <= Unwanted(items)
    ensures Unwanted(items[n..]) == Unwanted(items) - n
  {
    if n > 0 {
      UnwantedAfter(items[1..], n - 1);
      assert items[1..][n - 1..] == items[n..];
    }
  }

  /** How a poll that has dropped `n` items goes on. */
  lemma PollFrom<R>(items: seq<Option<R>>, budget: nat, n: nat)
    requires n <= Unwanted(items) && n <= budget
    ensures n == budget || n == |items| ==> PollOnce(items, budget) == (None, n)
    ensures n < budget && n < |items| ==>
      if items[n].Some? then PollOnce(items, budget) == (items[n], n + 1) else n < Unwanted(items)
  {
  }
}
