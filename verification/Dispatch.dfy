/** Index sequences, and the order in which a message visits a handler's decorators. */
module Dispatch {
  import opened Common

  // -------------------------------------------------------------------------------------
  // Index sequences
  // -------------------------------------------------------------------------------------

  /** The indices, the indices again moved up by n, and what comes last. */
  function Extend(ints: seq<nat>, n: nat, last: seq<nat>): seq<nat> {
    ints + seq(|ints|, i requires 0 <= i < |ints| => ints[i] + n) + last
  }

  /** make_integer_sequence: doubling the sequence of half the length. */
  function Make(n: nat): seq<nat> {
    if n == 0 then []
    else if n % 2 == 0 then Extend(Make(n / 2), n / 2, [])
    else Extend(Make(n / 2), n / 2, [n - 1])
  }

  /** How deep the recursion goes. */
  function Depth(n: nat): nat {
    if n == 0 then 0 else 1 + Depth(n / 2)
  }

  /** The indices from 0 to n - 1 in order. */
  lemma {:induction false} MakeCounts(n: nat)
    ensures |Make(n)| == n && forall i :: 0 <= i < n ==> Make(n)[i] == i
  {
    if n > 0 {
      MakeCounts(n / 2);
    }
  }

  /** The depth is logarithmic: 2^(depth - 1) <= n < 2^depth. */
  lemma {:induction false} DepthIsLogarithmic(n: nat)
    ensures n < Power2(Depth(n))
    ensures n > 0 ==> Depth(n) > 0 && Power2(Depth(n) - 1) <= n
  {
    if n > 0 {
      DepthIsLogarithmic(n / 2);
    }
  }

  // -------------------------------------------------------------------------------------
  // Decorators
  // -------------------------------------------------------------------------------------

  /** An element of the tuple of all decorators: the handler, or a decorator with its forwarder's index. */
  datatype Element<!M> = Handler | Decorator(behave: M -> Option<M>, next: nat)

  /** Position 0 holds the handler, position k + 1 the k-th decorator. */
  function AllDecorators<M>(behaviours: seq<M -> Option<M>>): (all: seq<Element<M>>)
    ensures |all| == |behaviours| + 1
  {
    MakeCounts(|behaviours|);
    [Handler] + seq(|behaviours|, k requires 0 <= k < |behaviours| => Decorator(behaviours[k], Make(|behaviours|)[k]))
  }

  /** A message being handled at a position. */
  datatype Visit<M> = Visit(position: nat, msg: M)

  /** Every forwarder's index is below its own position. */
  ghost predicate WellFounded<M>(all: seq<Element<M>>) {
    forall k :: 0 <= k < |all| && all[k].Decorator? ==> all[k].next < k
  }

  /** The visits a message makes from a position on. A decorator forwards it, perhaps changed, or does not. */
  function Visits<M>(all: seq<Element<M>>, position: nat, msg: M): seq<Visit<M>>
    requires WellFounded(all) && position < |all|
    decreases position
  {
    match all[position]
    case Handler => [Visit(position, msg)]
    case Decorator(behave, next) =>
      match behave(msg)
      case None => [Visit(position, msg)]
      case Some(msg') => [Visit(position, msg)] + Visits(all, next, msg')
  }

  lemma ForwardersPointDown<M>(behaviours: seq<M -> Option<M>>)
    ensures var all := AllDecorators(behaviours);
            && WellFounded(all) && all[0] == Handler
            && forall k :: 0 <= k < |behaviours| ==> all[k + 1] == Decorator(behaviours[k], k)
  {
    MakeCounts(|behaviours|);
  }

  /** handle starts at the lowest decorator, the last one of the tuple. */
  function Handle<M>(behaviours: seq<M -> Option<M>>, msg: M): seq<Visit<M>> {
    ForwardersPointDown(behaviours);
    var all := AllDecorators(behaviours);
    Visits(all, |all| - 1, msg)
  }

  /** What decorator k makes of a message. */
  ghost predicate Forwards<M>(behaviours: seq<M -> Option<M>>, from: Visit<M>, to: Visit<M>) {
    && 0 < from.position <= |behaviours| && to.position == from.position - 1
    && behaviours[from.position - 1](from.msg) == Some(to.msg)
  }

  ghost predicate Stops<M>(behaviours: seq<M -> Option<M>>, visit: Visit<M>) {
    visit.position == 0 || (visit.position <= |behaviours| && behaviours[visit.position - 1](visit.msg).None?)
  }

  /** A walk from a visit down: each visit forwards to the next, and the last one stops. */
  ghost predicate Descends<M>(behaviours: seq<M -> Option<M>>, visits: seq<Visit<M>>) {
    && visits != []
    && (forall i :: 0 <= i < |visits| - 1 ==> Forwards(behaviours, visits[i], visits[i + 1]))
    && Stops(behaviours, visits[|visits| - 1])
  }

  lemma {:induction false} VisitsDescend<M>(behaviours: seq<M -> Option<M>>, position: nat, msg: M)
    requires position <= |behaviours|
    ensures WellFounded(AllDecorators(behaviours))
    ensures var visits := Visits(AllDecorators(behaviours), position, msg);
            Descends(behaviours, visits) && visits[0] == Visit(position, msg)
    decreases position
  {
    ForwardersPointDown(behaviours);
    var all := AllDecorators(behaviours);
    if position > 0 {
      assert all[(position - 1) + 1] == Decorator(behaviours[position - 1], position - 1);
      var to := behaviours[position - 1](msg);
      if to.Some? {
        VisitsDescend(behaviours, position - 1, to.value);
      }
    }
  }

  /**
   * A message visits the decorators from the last to the first, each at most once, each handed
   * what the one before made of it; it stops at the first decorator that does not forward it,
   * and otherwise ends at the handler.
   */
  lemma LastToFirst<M>(behaviours: seq<M -> Option<M>>, msg: M)
    ensures var visits := Handle(behaviours, msg);
            && Descends(behaviours, visits) && visits[0] == Visit(|behaviours|, msg)
            && forall i :: 0 <= i < |visits| ==> visits[i].position == |behaviours| - i
  {
    VisitsDescend(behaviours, |behaviours|, msg);
    var visits := Handle(behaviours, msg);
    PositionsCountDown(behaviours, visits, |visits| - 1);
  }

  lemma {:induction false} PositionsCountDown<M>(behaviours: seq<M -> Option<M>>, visits: seq<Visit<M>>, k: nat)
    requires Descends(behaviours, visits) && k < |visits| && visits[0].position == |behaviours|
    ensures forall i :: 0 <= i <= k ==> visits[i].position == |behaviours| - i
  {
    if k > 0 {
      PositionsCountDown(behaviours, visits, k - 1);
      assert Forwards(behaviours, visits[k - 1], visits[k]);
    }
  }

  lemma TailDescends<M>(behaviours: seq<M -> Option<M>>, visits: seq<Visit<M>>)
    requires Descends(behaviours, visits) && |visits| > 1
    ensures Descends(behaviours, visits[1..])
  {
    var tail := visits[1..];
    forall i | 0 <= i < |tail| - 1 ensures Forwards(behaviours, tail[i], tail[i + 1]) {
      assert Forwards(behaviours, visits[i + 1], visits[(i + 1) + 1]);
    }
  }

  /** There is only one such walk, so the walk is what the order of the decorators says and nothing else. */
  lemma {:induction false} WalkIsUnique<M>(behaviours: seq<M -> Option<M>>, a: seq<Visit<M>>, b: seq<Visit<M>>)
    requires Descends(behaviours, a) && Descends(behaviours, b) && a[0] == b[0]
    ensures a == b
    decreases |a|
  {
    if |a| > 1 {
      assert Forwards(behaviours, a[0], a[1]);
    }
    if |b| > 1 {
      assert Forwards(behaviours, b[0], b[1]);
    }
    if |a| > 1 && |b| > 1 {
      TailDescends(behaviours, a);
      TailDescends(behaviours, b);
      WalkIsUnique(behaviours, a[1..], b[1..]);
      assert a == [a[0]] + a[1..] && b == [b[0]] + b[1..];
    } else {
      assert a == [a[0]] && b == [b[0]];
    }
  }
}
