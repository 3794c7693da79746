/**
 * The message router: one handler per buddy id. Registering replaces the
 * handler of that id, unregistering removes it, and posting calls the handler
 * of the id with the message, or does nothing when there is none. Handlers are
 * opaque values of type `H`; a call of a handler is returned as a `Delivery`.
 */
module Messenger {

  import opened Options

  /** The handler that was called and the message it was called with. */
  datatype Delivery<H> = Delivery(handler: H, message: string)

  /** `listeners[buddyID] = handler`. */
  function Registered<H>(listeners: map<string, H>, buddyID: string, handler: H): (r: map<string, H>)
    ensures r.Keys == listeners.Keys + {buddyID}
    ensures buddyID in r && r[buddyID] == handler
    ensures forall id :: id in listeners && id != buddyID ==> r[id] == listeners[id]
  {
    listeners[buddyID := handler]
  }

  /** `listeners.removeValue(forKey: buddyID)`. */
  function Unregistered<H>(listeners: map<string, H>, buddyID: string): (r: map<string, H>)
    ensures r.Keys == listeners.Keys - {buddyID}
    ensures forall id :: id in r ==> r[id] == listeners[id]
    ensures buddyID !in listeners ==> r == listeners
  {
    listeners - {buddyID}
  }

  /** `listeners[buddyID]?(message)`: the handler of the id, if any, called with the message. */
  function Deliver<H>(listeners: map<string, H>, buddyID: string, message: string): (r: Option<Delivery<H>>)
    ensures r.Some? <==> buddyID in listeners
    ensures r.Some? ==> r.value.handler == listeners[buddyID] && r.value.message == message
  {
    if buddyID in listeners then Some(Delivery(listeners[buddyID], message)) else None
  }

  /** Unregistering undoes registering an id that had no handler. */
  lemma UnregisterUndoesRegister<H>(listeners: map<string, H>, buddyID: string, handler: H)
    requires buddyID !in listeners
    ensures Unregistered(Registered(listeners, buddyID, handler), buddyID) == listeners
  {
  }

  /** The calls the router receives, in order. */
  datatype Request<H> =
    | Register(buddyID: string, handler: H)
    | Unregister(buddyID: string)
    | Post(buddyID: string, message: string)
  {
    predicate Touches(id: string) {
      (Register? || Unregister?) && buddyID == id
    }
  }

  /** The map after one request, and the handler call it makes. */
  function Apply<H>(listeners: map<string, H>, request: Request<H>): (r: (map<string, H>, Option<Delivery<H>>))
    ensures request.Post? ==> r.0 == listeners
    ensures !request.Post? ==> r.1 == None
    ensures forall id :: !request.Touches(id) ==> (id in r.0 <==> id in listeners)
    ensures forall id :: !request.Touches(id) && id in r.0 ==> r.0[id] == listeners[id]
    ensures request.Register? ==> request.buddyID in r.0 && r.0[request.buddyID] == request.handler
    ensures request.Unregister? ==> request.buddyID !in r.0
    ensures request.Post? ==>
      && (r.1.Some? <==> request.buddyID in listeners)
      && (r.1.Some? ==> r.1.value == Delivery(listeners[request.buddyID], request.message))
  {
    match request
    case Register(id, h) => (Registered(listeners, id, h), None)
    case Unregister(id) => (Unregistered(listeners, id), None)
    case Post(id, m) => (listeners, Deliver(listeners, id, m))
  }

  /**
   * The map after a sequence of requests. Every handler in it was either there
   * from the start or registered by one of the requests.
   */
  function Final<H>(listeners: map<string, H>, requests: seq<Request<H>>): (m: map<string, H>)
    ensures forall id :: id in m ==>
      (id in listeners && m[id] == listeners[id]) || Register(id, m[id]) in requests
    decreases |requests|
  {
    if requests == [] then listeners
    else Apply(Final(listeners, requests[..|requests| - 1]), requests[|requests| - 1]).0
  }

  /** The handler calls a sequence of requests makes, in order. */
  function Calls<H>(listeners: map<string, H>, requests: seq<Request<H>>): (calls: seq<Delivery<H>>)
    ensures |calls| <= |requests|
    ensures requests != [] ==>
      var earlier := Calls(listeners, requests[..|requests| - 1]);
      earlier <= calls && |calls| <= |earlier| + 1
    decreases |requests|
  {
    if requests == [] then []
    else
      var init := requests[..|requests| - 1];
      var last := Apply(Final(listeners, init), requests[|requests| - 1]).1;
      Calls(listeners, init) + (if last.Some? then [last.value] else [])
  }

  /**
   * A post appended to any sequence calls the handler the id has after that
   * sequence, with the message, and calls nothing when the id has none then.
   */
  lemma PostAfter<H>(listeners: map<string, H>, requests: seq<Request<H>>, id: string, message: string)
    ensures var m := Final(listeners, requests);
      && Final(listeners, requests + [Post(id, message)]) == m
      && Calls(listeners, requests + [Post(id, message)]) ==
         Calls(listeners, requests) + (if id in m then [Delivery(m[id], message)] else [])
  {
    var all := requests + [Post(id, message)];
    assert all[..|all| - 1] == requests;
  }

  /** Posting alone never changes the map. */
  lemma {:induction false} PostsKeepListeners<H>(listeners: map<string, H>, requests: seq<Request<H>>)
    requires forall i :: 0 <= i < |requests| ==> requests[i].Post?
    ensures Final(listeners, requests) == listeners
    decreases |requests|
  {
    if requests != [] {
      PostsKeepListeners(listeners, requests[..|requests| - 1]);
    }
  }

  /** Requests that do not register or unregister an id leave its entry as it was. */
  lemma {:induction false} UntouchedKeepsEntry<H>(listeners: map<string, H>, requests: seq<Request<H>>, id: string)
    requires forall i :: 0 <= i < |requests| ==> !requests[i].Touches(id)
    ensures id in Final(listeners, requests) <==> id in listeners
    ensures id in listeners ==> Final(listeners, requests)[id] == listeners[id]
    decreases |requests|
  {
    if requests != [] {
      UntouchedKeepsEntry(listeners, requests[..|requests| - 1], id);
    }
  }

  /** A registration holds through requests that do not register or unregister its id. */
  lemma {:induction false} RegistrationHolds<H>(listeners: map<string, H>, id: string, h: H, between: seq<Request<H>>)
    requires forall i :: 0 <= i < |between| ==> !between[i].Touches(id)
    ensures var m := Final(listeners, [Register(id, h)] + between); id in m && m[id] == h
    decreases |between|
  {
    var requests := [Register(id, h)] + between;
    if between == [] {
      assert requests[..0] == [];
    } else {
      var init := between[..|between| - 1];
      assert requests[..|requests| - 1] == [Register(id, h)] + init;
      assert requests[|requests| - 1] == between[|between| - 1];
      RegistrationHolds(listeners, id, h, init);
    }
  }

  /**
   * The last registration wins: after `Register(id, h)` and any requests that
   * do not register or unregister `id`, a post to `id` calls `h` and only `h`.
   */
  lemma LastRegistrationWins<H>(listeners: map<string, H>, id: string, h: H, between: seq<Request<H>>, message: string)
    requires forall i :: 0 <= i < |between| ==> !between[i].Touches(id)
    ensures var prefix := [Register(id, h)] + between;
      Calls(listeners, prefix + [Post(id, message)]) == Calls(listeners, prefix) + [Delivery(h, message)]
  {
    var prefix := [Register(id, h)] + between;
    var requests := prefix + [Post(id, message)];
    assert requests[..|requests| - 1] == prefix;
    RegistrationHolds(listeners, id, h, between);
  }

  /** A post to an id without handler is dropped, not kept for a handler registered later. */
  lemma PostIsNotQueued<H>(listeners: map<string, H>, id: string, message: string, h: H)
    requires id !in listeners
    ensures var requests := [Post(id, message), Register(id, h)];
      Calls(listeners, requests) == [] && Final(listeners, requests) == Registered(listeners, id, h)
  {
    var post: seq<Request<H>> := [Post(id, message)];
    var requests := post + [Register(id, h)];
    assert requests[..1] == post;
    assert post[..0] == [];
    assert Final(listeners, post) == listeners;
    assert Calls(listeners, post) == [];
  }

  /** The router object. */
  class BuddyMessenger<H> {
    var listeners: map<string, H>

    constructor ()
      ensures listeners == map[]
    {
      listeners := map[];
    }

    method Register(buddyID: string, handler: H)
      modifies this
      ensures listeners == Registered(old(listeners), buddyID, handler)
    {
      listeners := listeners[buddyID := handler];
    }

    method Unregister(buddyID: string)
      modifies this
      ensures listeners == Unregistered(old(listeners), buddyID)
    {
      listeners := listeners - {buddyID};
    }

    /** Changes nothing; returns the handler call it makes. */
    method Post(buddyID: string, message: string) returns (delivered: Option<Delivery<H>>)
      ensures delivered == Deliver(listeners, buddyID, message)
    {
      if buddyID in listeners {
        delivered := Some(Delivery(listeners[buddyID], message));
      } else {
        delivered := None;
      }
    }
  }
}
