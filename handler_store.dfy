/**
 * The three handler registries of src/lib/meshHandlerStore.ts: schema handlers (an ordered list
 * per schema key), view handlers (one ordered list) and error handlers (at most one per status),
 * and the way each store runs what it holds.
 */
module HandlerStore {
  import opened Common
  import opened MeshUtil

  /**
   * A registered callback. JavaScript compares callbacks by reference, so a handler is its
   * identity; what it does when called is supplied to the `Work` methods as a function.
   */
  datatype Handler = Handler(id: nat)

  /** `if (indexOf(x) >= 0) splice(indexOf(x), 1)`: removes the first occurrence of x and nothing else. */
  function RemoveFirst<T(==)>(s: seq<T>, x: T): (r: seq<T>)
    ensures x !in s ==> r == s
    ensures x in s ==> |r| == |s| - 1 && multiset(r) == multiset(s) - multiset{x}
    ensures x in s ==> exists i :: 0 <= i < |s| && s[i] == x && x !in s[..i] && r == s[..i] + s[i + 1..]
  {
    var i := IndexOf(s, x);
    if i >= 0 then
      assert s == s[..i] + [s[i]] + s[i + 1..];
      s[..i] + s[i + 1..]
    else s
  }

  /** Removing a handler right after appending it (when it was not there before) restores the list. */
  lemma RemoveFirstAfterAppend<T>(s: seq<T>, x: T)
    requires x !in s
    ensures RemoveFirst(s + [x], x) == s
  {
    assert IndexOf(s + [x], x) == |s| by {
      assert (s + [x])[..|s|] == s;
    }
    assert (s + [x])[..|s|] == s;
  }

  /** The list registered under a key, an absent key reading as the empty list. */
  function ListOf(lists: map<string, seq<Handler>>, schema: string): seq<Handler>
  {
    if schema in lists then lists[schema] else []
  }

  /** The registry after registerSchemaHandler: the handler appended to the schema's list. */
  function WithHandler(lists: map<string, seq<Handler>>, schema: string, handler: Handler): (r: map<string, seq<Handler>>)
    ensures r.Keys == lists.Keys + {schema}
    ensures r[schema] == ListOf(lists, schema) + [handler]
    ensures forall k :: k in lists && k != schema ==> r[k] == lists[k]
  {
    lists[schema := ListOf(lists, schema) + [handler]]
  }

  /** The registry after unregisterSchemaHandler: the first occurrence removed, if the schema has a list. */
  function WithoutHandler(lists: map<string, seq<Handler>>, schema: string, handler: Handler): (r: map<string, seq<Handler>>)
    ensures schema !in lists || handler !in lists[schema] ==> r == lists
    ensures r.Keys == lists.Keys
    ensures forall k :: k in lists && k != schema ==> r[k] == lists[k]
    ensures schema in lists ==> r[schema] == RemoveFirst(lists[schema], handler)
  {
    if schema in lists then lists[schema := RemoveFirst(lists[schema], handler)] else lists
  }

  /**
   * Registering and then unregistering the same new handler restores every list; a schema that
   * had no list keeps an empty one.
   */
  lemma UnregisterUndoesRegister(lists: map<string, seq<Handler>>, schema: string, handler: Handler)
    requires handler !in ListOf(lists, schema)
    ensures WithoutHandler(WithHandler(lists, schema, handler), schema, handler) == lists[schema := ListOf(lists, schema)]
  {
    RemoveFirstAfterAppend(ListOf(lists, schema), handler);
  }

  /** The outcome of running handlers in order on one item (each handler sees the same item). */
  function RunHandlers<T, E>(list: seq<Handler>, item: T, handle: (Handler, T) -> Outcome<E>): Outcome<E>
  {
    RunChain(list, h => handle(h, item))
  }

  /** How a chain over an item settles: with the original item when all handlers fulfil. */
  function Settle<T, E>(o: Outcome<E>, item: T): (r: Settled<T, E>)
    ensures o.Ok? <==> r == Fulfilled(item)
    ensures o.Fail? ==> r == Rejected(o.reason)
    ensures r.Rejected? ==> o.Fail?
  {
    if o.Ok? then Fulfilled(item) else Rejected(o.reason)
  }

  /** What workSchemaHandlers settles to for a registry snapshot. */
  function SchemaChain<T, E>(lists: map<string, seq<Handler>>, schema: string, item: T, handle: (Handler, T) -> Outcome<E>): (r: Settled<T, E>)
    ensures schema !in lists ==> r == Fulfilled(item)
    ensures r.Fulfilled? ==> r.value == item
    ensures r.Rejected? <==> schema in lists && exists i :: 0 <= i < |lists[schema]| && handle(lists[schema][i], item).Fail?
  {
    if schema in lists then
      var o := RunHandlers(lists[schema], item, handle);
      assert o.Ok? <==> forall i :: 0 <= i < |lists[schema]| ==> handle(lists[schema][i], item).Ok?;
      Settle(o, item)
    else Fulfilled(item)
  }

  /** Runs a handler list through asyncLoop; `ran` is the handlers called, in call order. */
  method RunList<T, E>(list: seq<Handler>, item: T, handle: (Handler, T) -> Outcome<E>)
    returns (r: Settled<T, E>, ran: seq<Handler>)
    ensures r == Settle(RunHandlers(list, item, handle), item)
    ensures ran <= list
    ensures r.Fulfilled? ==> ran == list
    ensures r.Rejected? ==> ran != [] && handle(ran[|ran| - 1], item) == Fail(r.reason)
    ensures forall j :: 0 <= j < |ran| - 1 ==> handle(ran[j], item).Ok?
  {
    var body := h => handle(h, item);
    var o, calls := AsyncLoop(list, body);
    RunChainCongruent(list, body, h => handle(h, item));
    ran := list[..|calls|];
    r := Settle(o, item);
  }

  /** Schema handler store. */
  class SchemaHandlerStore {
    /** The handlers of each schema, in registration order; an absent key has no list yet. */
    var lists: map<string, seq<Handler>>

    constructor ()
      ensures lists == map[]
    {
      lists := map[];
    }

    /** registerSchemaHandler: appends, creating an empty list first; other schemas' lists are unchanged. */
    method RegisterSchemaHandler(schema: string, handler: Handler)
      modifies this
      ensures lists == WithHandler(old(lists), schema, handler)
    {
      if schema !in lists {
        lists := lists[schema := []];
      }
      lists := lists[schema := lists[schema] + [handler]];
    }

    /** unregisterSchemaHandler: removes the first occurrence only; no list or no occurrence changes nothing. */
    method UnregisterSchemaHandler(schema: string, handler: Handler)
      modifies this
      ensures lists == WithoutHandler(old(lists), schema, handler)
    {
      if schema in lists {
        var list := lists[schema];
        var i := IndexOf(list, handler);
        if i >= 0 {
          lists := lists[schema := list[..i] + list[i + 1..]];
        }
      }
    }

    /**
     * workSchemaHandlers: with no list it resolves with the item and runs nothing; otherwise it runs
     * the handlers in list order, each after the previous one fulfilled, rejects with the first
     * rejection (no later handler runs) and on success resolves with the original item.
     */
    method WorkSchemaHandlers<T, E>(schema: string, item: T, handle: (Handler, T) -> Outcome<E>)
      returns (r: Settled<T, E>, ran: seq<Handler>)
      ensures r == SchemaChain(lists, schema, item, handle)
      ensures schema !in lists ==> ran == []
      ensures schema in lists ==> ran <= lists[schema]
      ensures r.Fulfilled? ==> r.value == item && ran == ListOf(lists, schema)
      ensures r.Rejected? ==> ran != [] && handle(ran[|ran| - 1], item) == Fail(r.reason)
      ensures forall j :: 0 <= j < |ran| - 1 ==> handle(ran[j], item).Ok?
    {
      if schema in lists {
        r, ran := RunList(lists[schema], item, handle);
      } else {
        r, ran := Fulfilled(item), [];
      }
    }
  }

  /** View handler store: one list, run before every view render. */
  class ViewHandlerStore {
    var handlers: seq<Handler>

    constructor ()
      ensures handlers == []
    {
      handlers := [];
    }

    /** registerViewHandler: appends. */
    method RegisterViewHandler(handler: Handler)
      modifies this
      ensures handlers == old(handlers) + [handler]
    {
      handlers := handlers + [handler];
    }

    /** The store's `unregisterSchemaHandler` (so named in the library): removes the first occurrence only. */
    method UnregisterSchemaHandler(handler: Handler)
      modifies this
      ensures handlers == RemoveFirst(old(handlers), handler)
    {
      var i := IndexOf(handlers, handler);
      if i >= 0 {
        handlers := handlers[..i] + handlers[i + 1..];
      }
    }

    /** workViewHandlers: the handlers in order, fail-fast, resolving with the original render data. */
    method WorkViewHandlers<D, E>(data: D, handle: (Handler, D) -> Outcome<E>)
      returns (r: Settled<D, E>, ran: seq<Handler>)
      ensures r == Settle(RunHandlers(handlers, data, handle), data)
      ensures ran <= handlers
      ensures r.Fulfilled? ==> r.value == data && ran == handlers
      ensures r.Rejected? ==> ran != [] && handle(ran[|ran| - 1], data) == Fail(r.reason)
      ensures forall j :: 0 <= j < |ran| - 1 ==> handle(ran[j], data).Ok?
    {
      r, ran := RunList(handlers, data, handle);
    }
  }

  /** Whether workErrorHandler fulfils: a handler is registered for the status and does not throw. */
  function ErrorHandled<E>(slots: map<int, Handler>, status: int, error: E, throws: (Handler, E, int) -> bool): (ok: bool)
    ensures ok ==> status in slots
    ensures status !in slots ==> !ok
    ensures status in slots ==> (ok <==> !throws(slots[status], error, status))
  {
    status in slots && !throws(slots[status], error, status)
  }

  /** Error handler store: at most one handler per status. */
  class ErrorHandlerStore {
    var slots: map<int, Handler>

    constructor ()
      ensures slots == map[]
    {
      slots := map[];
    }

    /** registerErrorHandler overwrites: the last registration for a status wins. */
    method RegisterErrorHandler(status: int, handler: Handler)
      modifies this
      ensures slots == old(slots)[status := handler]
    {
      slots := slots[status := handler];
    }

    /** unregisterErrorHandler clears the status's slot whatever handler is passed. */
    method UnregisterErrorHandler(status: int, handler: Option<Handler>)
      modifies this
      ensures slots == old(slots) - {status}
    {
      slots := slots - {status};
    }

    /**
     * workErrorHandler: calls the status's handler synchronously; fulfils iff one is registered and
     * it returns without throwing. `ran` is the handler called, if any.
     */
    method WorkErrorHandler<E>(status: int, error: E, throws: (Handler, E, int) -> bool)
      returns (ok: bool, ran: Option<Handler>)
      ensures ok == ErrorHandled(slots, status, error, throws)
      ensures ran == if status in slots then Some(slots[status]) else None
    {
      if status in slots {
        var handler := slots[status];
        ran := Some(handler);
        ok := !throws(handler, error, status);
      } else {
        ok, ran := false, None;
      }
    }
  }

  /**
   * Registering appends to the end of the schema's chain: the new handler runs last, and only
   * when every handler registered before it fulfilled; an earlier failure is reported unchanged.
   */
  lemma SchemaChainAfterRegister<T, E>(lists: map<string, seq<Handler>>, schema: string, handler: Handler,
                                       item: T, handle: (Handler, T) -> Outcome<E>)
    ensures var before := SchemaChain(lists, schema, item, handle);
      SchemaChain(WithHandler(lists, schema, handler), schema, item, handle) ==
        if before.Rejected? then before else Settle(handle(handler, item), item)
  {
    RunChainAppend(ListOf(lists, schema), [handler], h => handle(h, item));
  }

  /**
   * The error store after registerErrorHandler and unregisterErrorHandler: the status is handled
   * exactly when the handler just registered does not throw (the last registration wins), it is
   * never handled once unregistered, and every other status keeps its answer.
   */
  lemma ErrorHandledAfterUpdate<E>(slots: map<int, Handler>, status: int, other: int, handler: Handler,
                                   error: E, throws: (Handler, E, int) -> bool)
    ensures ErrorHandled(slots[status := handler], status, error, throws) == !throws(handler, error, status)
    ensures !ErrorHandled(slots - {status}, status, error, throws)
    ensures other != status ==>
      ErrorHandled(slots[status := handler], other, error, throws) == ErrorHandled(slots, other, error, throws)
    ensures other != status ==>
      ErrorHandled(slots - {status}, other, error, throws) == ErrorHandled(slots, other, error, throws)
  {
  }
}
