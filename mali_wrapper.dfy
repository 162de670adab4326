/**
 * The process-wide state of drivers/wrapper/libMaliWrapper.c and the code
 * that works on it: the `handlers` array with its count `n_handlers`, the
 * captured `default_handler` and the one-time `initialized` flag, as fields
 * of one `Registry` object.
 */
module MaliWrapper {
  import opened HandlerTable

  /**
   * `realloc`/`calloc` of the `handlers` array to `n` slots: a fresh array
   * whose first slots hold the old contents. New slots start zeroed (display
   * address 0, NULL handler), as `calloc` gives them.
   */
  method Realloc(a: array<HandlerData>, n: nat) returns (b: array<HandlerData>)
    ensures fresh(b) && b.Length == n
    ensures forall j :: 0 <= j < n && j < a.Length ==> b[j] == a[j]
  {
    b := new HandlerData[n];
    var i := 0;
    while i < n && i < a.Length
      invariant 0 <= i <= n && i <= a.Length
      invariant forall j :: 0 <= j < i ==> b[j] == a[j]
    {
      b[i] := a[i];
      i := i + 1;
    }
  }

  class Registry {
    /** `handlers`; the C NULL before the first append is the empty array. */
    var handlers: array<HandlerData>
    /** `n_handlers` */
    var nHandlers: nat
    /** `default_handler`: the process-wide handler found when the shim was installed. */
    var defaultHandler: Option<Handler>
    /** `initialized` (the C `static int` holding 0 or 1). */
    var initialized: bool

    /**
     * The array is exactly `n_handlers` long, holds at most one entry per
     * display, and before the first call nothing has been stored or captured.
     */
    ghost predicate Valid()
      reads this, handlers
    {
      && nHandlers == handlers.Length
      && Unique(handlers[..])
      && (!initialized ==> nHandlers == 0 && defaultHandler == None)
    }

    /** The entries `handlers[0 .. n_handlers - 1]`. */
    ghost function Entries(): seq<HandlerData>
      reads this, handlers
      requires Valid()
    {
      handlers[..nHandlers]
    }

    /** The statics as the program starts: no entries, no default handler, not initialized. */
    constructor ()
      ensures Valid() && fresh(handlers)
      ensures Entries() == [] && defaultHandler == None && !initialized
    {
      handlers := new HandlerData[0];
      nHandlers := 0;
      defaultHandler := None;
      initialized := false;
    }

    /** `handlers_lookup`: the index of the first entry for `dpy`, or `None`. */
    method Lookup(dpy: Display) returns (r: Option<nat>)
      requires Valid()
      ensures r == Find(Entries(), dpy)
    {
      var i := 0;
      while i < nHandlers
        invariant 0 <= i <= nHandlers
        invariant forall j :: 0 <= j < i ==> handlers[j].dpy != dpy
      {
        if handlers[i].dpy == dpy {
          FindIs(Entries(), dpy, i);
          return Some(i);
        }
        i := i + 1;
      }
      return None;
    }

    /**
     * `magic_error_handler`: which handler receives an error on `dpy`; the
     * registry and the captured default handler are only read.
     */
    method MagicErrorHandler(dpy: Display) returns (sel: Selection)
      requires Valid()
      ensures sel == Select(Entries(), defaultHandler, dpy)
    {
      var data := Lookup(dpy);
      if data.Some? && handlers[data.value].handler.Some? {
        sel := Invoke(handlers[data.value].handler.value);
      } else if defaultHandler.Some? {
        sel := Invoke(defaultHandler.value);
      } else {
        sel := ReturnZero;
      }
    }

    /**
     * `XDisplaySetErrorHandler(dpy, handler)`. On the first call the shim is
     * installed with `XSetErrorHandler`, whose answer, the handler installed
     * before, is `priorGlobal`; it becomes the default handler. Then the entry
     * for `dpy` is overwritten in place (its old handler is returned) or a new
     * entry is appended at the end (and NULL is returned).
     */
    method DisplaySetErrorHandler(dpy: Display, handler: Option<Handler>, priorGlobal: Option<Handler>)
      returns (oldHandler: Option<Handler>)
      requires Valid()
      modifies this, handlers
      ensures Valid() && initialized
      ensures defaultHandler == if old(initialized) then old(defaultHandler) else priorGlobal
      ensures Entries() == Updated(old(Entries()), dpy, handler)
      ensures oldHandler == StoredHandler(old(Entries()), dpy)
      ensures Find(old(Entries()), dpy).Some? ==>
        handlers == old(handlers) && nHandlers == old(nHandlers)
      ensures Find(old(Entries()), dpy).None? ==>
        fresh(handlers) && nHandlers == old(nHandlers) + 1 && oldHandler == None
    {
      ghost var before := Entries();
      if !initialized {
        defaultHandler := priorGlobal;
        initialized := true;
      }
      UpdatedKeepsUnique(before, dpy, handler);
      oldHandler := None;
      var data := Lookup(dpy);
      match data
      case Some(i) =>
        oldHandler := handlers[i].handler;
        handlers[i] := handlers[i].(handler := handler);
        assert handlers[..] == Updated(before, dpy, handler);
      case None =>
        nHandlers := nHandlers + 1;
        var grown := Realloc(handlers, nHandlers);
        handlers := grown;
        handlers[nHandlers - 1] := HandlerData(dpy, handler);
        assert handlers[..] == before + [HandlerData(dpy, handler)];
    }
  }

  /**
   * The end-to-end use: C1 gets handler X, C2 has none, G was the process-wide
   * handler before the first call. Errors on C1 go to X and errors on C2 to G;
   * setting C1's handler to NULL returns X and sends C1's errors to G as well.
   */
  method EndToEnd(c1: Display, c2: Display, x: Handler, g: Handler)
    returns (onC1: Selection, onC2: Selection, previous: Option<Handler>, onC1Cleared: Selection)
    requires c1 != c2
    ensures onC1 == Invoke(x) && onC2 == Invoke(g)
    ensures previous == Some(x) && onC1Cleared == Invoke(g)
  {
    var registry := new Registry();
    var first := registry.DisplaySetErrorHandler(c1, Some(x), Some(g));
    DispatchAfterSet([], Some(g), c1, Some(x), c1);
    DispatchAfterSet([], Some(g), c1, Some(x), c2);
    onC1 := registry.MagicErrorHandler(c1);
    onC2 := registry.MagicErrorHandler(c2);
    ghost var afterFirst := registry.Entries();
    SetTwiceReturnsFirst([], c1, Some(x), None);
    previous := registry.DisplaySetErrorHandler(c1, None, None);
    DispatchAfterSet(afterFirst, Some(g), c1, None, c1);
    onC1Cleared := registry.MagicErrorHandler(c1);
  }
}
