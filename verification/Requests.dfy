// The client's table of requests that wait for an answer.
module Requests {
  import opened Text

  // A result is null when it is missing, or when the wait is over.
  datatype Event<V> = Request | Response(id: int, result: Option<V>) | Timeout(id: int)

  datatype Resolution<V> = Resolution(id: int, result: Option<V>)

  datatype Table<V> = Table(nextId: int, pending: set<int>, resolved: seq<Resolution<V>>)

  function Step<V>(t: Table<V>, e: Event<V>): Table<V> {
    match e
    case Request => Table(t.nextId + 1, t.pending + {t.nextId}, t.resolved)
    case Response(id, result) =>
      if id == 0 || id !in t.pending then t
      else Table(t.nextId, t.pending - {id}, t.resolved + [Resolution(id, result)])
    case Timeout(id) =>
      if id !in t.pending then t else Table(t.nextId, t.pending - {id}, t.resolved + [Resolution(id, None)])
  }

  function After<V>(es: seq<Event<V>>): Table<V> {
    if es == [] then Table(1, {}, []) else Step(After(es[..|es| - 1]), es[|es| - 1])
  }

  class RequestTable<V> {
    var nextId: int
    var pending: set<int>
    var resolved: seq<Resolution<V>>

    function State(): Table<V>
      reads this
    {
      Table(nextId, pending, resolved)
    }

    constructor ()
      ensures State() == After([])
    {
      nextId, pending, resolved := 1, {}, [];
    }

    method Request() returns (id: int)
      modifies this
      ensures State() == Step(old(State()), Event.Request) && id == old(nextId)
    {
      id := nextId;
      nextId := nextId + 1;
      pending := pending + {id};
    }

    // The end of the grace period of a request.
    method Expire(id: int)
      modifies this
      ensures State() == Step(old(State()), Timeout(id))
    {
      if id in pending {
        pending := pending - {id};
        resolved := resolved + [Resolution(id, None)];
      }
    }

    method HandleResponse(id: int, result: Option<V>)
      modifies this
      ensures State() == Step(old(State()), Response(id, result))
    {
      if id != 0 && id in pending {
        pending := pending - {id};
        resolved := resolved + [Resolution(id, result)];
      }
    }
  }

  // How many requests a run makes: their ids are 1, 2, and so on.
  function Made<V>(es: seq<Event<V>>): nat {
    if es == [] then 0 else Made(es[..|es| - 1]) + if es[|es| - 1].Request? then 1 else 0
  }

  predicate Answers<V>(e: Event<V>, id: int) { !e.Request? && e.id == id }

  function Given<V>(e: Event<V>): Option<V> { if e.Response? then e.result else None }

  // The first answer or timeout for a request since it was made.
  function FirstAnswer<V>(es: seq<Event<V>>, id: int): (r: Option<Option<V>>)
    ensures r.Some? ==> 1 <= id <= Made(es)
  {
    if es == [] then None else
    var front, e := es[..|es| - 1], es[|es| - 1];
    if FirstAnswer(front, id).Some? then FirstAnswer(front, id)
    else if 1 <= id <= Made(front) && Answers(e, id) then Some(Given(e)) else None
  }

  ghost predicate Settled<V>(t: Table<V>, id: int, v: Option<V>) {
    exists k :: 0 <= k < |t.resolved| && t.resolved[k] == Resolution(id, v)
  }

  ghost predicate Once<V>(t: Table<V>) {
    forall j, k :: 0 <= j < k < |t.resolved| ==> t.resolved[j].id != t.resolved[k].id
  }

  lemma SettledStep<V>(t: Table<V>, e: Event<V>, id: int, v: Option<V>)
    requires 0 !in t.pending
    ensures Settled(Step(t, e), id, v) <==> Settled(t, id, v) || (id in t.pending && Answers(e, id) && v == Given(e))
  {
    var u := Step(t, e);
    if Settled(t, id, v) {
      var k :| 0 <= k < |t.resolved| && t.resolved[k] == Resolution(id, v);
      assert u.resolved[k] == Resolution(id, v);
    }
    if id in t.pending && Answers(e, id) && v == Given(e) {
      assert u.resolved[|t.resolved|] == Resolution(id, v);
    }
  }

  // In any run, each request is resolved at most once, with its first answer,
  // and waits exactly until it has one.
  lemma {:induction false} ResolvedByFirstAnswer<V>(es: seq<Event<V>>)
    ensures var t := After(es);
            && t.nextId == Made(es) + 1 && Once(t)
            && (forall id :: id in t.pending <==> 1 <= id <= Made(es) && FirstAnswer(es, id).None?)
            && forall id, v :: Settled(t, id, v) <==> FirstAnswer(es, id) == Some(v)
  {
    if es != [] {
      var front, e := es[..|es| - 1], es[|es| - 1];
      ResolvedByFirstAnswer(front);
      var t := After(front);
      OnceStep(t, e);
      hide Settled, Once;
      forall id, v ensures Settled(Step(t, e), id, v) <==> FirstAnswer(es, id) == Some(v) {
        SettledStep(t, e, id, v);
      }
    }
  }

  lemma OnceStep<V>(t: Table<V>, e: Event<V>)
    requires Once(t) && forall id, v :: Settled(t, id, v) ==> id !in t.pending
    ensures Once(Step(t, e))
  {
    forall k | 0 <= k < |t.resolved| ensures t.resolved[k].id !in t.pending {
      assert Settled(t, t.resolved[k].id, t.resolved[k].result);
    }
  }
}
