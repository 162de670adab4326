/**
 * The value-level model of the per-display error-handler table kept by
 * drivers/wrapper/libMaliWrapper.c: its entries, the linear lookup, what one
 * XDisplaySetErrorHandler call does to the entries, and the rule by which the
 * dispatch shim chooses a handler.
 */
module HandlerTable {

  /** A `Display *` connection handle: an address that is compared, never dereferenced. */
  datatype Display = Display(address: nat)

  /** A non-NULL `XErrorHandler` function pointer; a NULL one is `None` in `Option<Handler>`. */
  datatype Handler = Handler(address: nat)

  datatype Option<+T> = None | Some(value: T)

  /** One slot of the `handlers` array (the C struct `HandlerData`). */
  datatype HandlerData = HandlerData(dpy: Display, handler: Option<Handler>)

  /**
   * What the dispatch shim does with one error: call `handler` and return its
   * result, or call nothing and return 0.
   */
  datatype Selection = Invoke(handler: Handler) | ReturnZero

  /** No two entries of the table are for the same display. */
  predicate Unique(s: seq<HandlerData>) {
    forall i, j :: 0 <= i < j < |s| ==> s[i].dpy != s[j].dpy
  }

  /** The displays the table has an entry for. */
  function Keys(s: seq<HandlerData>): set<Display> {
    set e | e in s :: e.dpy
  }

  /**
   * `handlers_lookup`: the index of the first entry for `dpy`, scanning from
   * the front, or `None` (the C NULL) when no entry is for `dpy`.
   */
  function Find(s: seq<HandlerData>, dpy: Display): (r: Option<nat>)
    ensures r.Some? ==> r.value < |s| && s[r.value].dpy == dpy
    ensures r.Some? ==> forall j :: 0 <= j < r.value ==> s[j].dpy != dpy
    ensures r.None? ==> forall j :: 0 <= j < |s| ==> s[j].dpy != dpy
  {
    if |s| == 0 then None
    else if s[0].dpy == dpy then Some(0)
    else match Find(s[1..], dpy)
      case None => None
      case Some(i) => Some(i + 1)
  }

  /** The handler stored for `dpy`, or `None` when there is no entry or its handler is NULL. */
  function StoredHandler(s: seq<HandlerData>, dpy: Display): Option<Handler> {
    match Find(s, dpy)
    case None => None
    case Some(i) => s[i].handler
  }

  /**
   * The entries after `XDisplaySetErrorHandler(dpy, h)`: the entry found for
   * `dpy` gets `h` in place, or `{dpy, h}` is appended when there is none.
   */
  function Updated(s: seq<HandlerData>, dpy: Display, h: Option<Handler>): seq<HandlerData> {
    match Find(s, dpy)
    case Some(i) => s[i := s[i].(handler := h)]
    case None => s + [HandlerData(dpy, h)]
  }

  /**
   * `magic_error_handler` as a choice: the display's own non-NULL handler,
   * else the captured default handler when it is non-NULL, else return 0.
   */
  function Select(s: seq<HandlerData>, fallback: Option<Handler>, dpy: Display): Selection {
    var data := Find(s, dpy);
    if data.Some? && s[data.value].handler.Some? then Invoke(s[data.value].handler.value)
    else if fallback.Some? then Invoke(fallback.value)
    else ReturnZero
  }

  /** The table read as the map from display to stored handler that it stands for. */
  function Table(s: seq<HandlerData>): map<Display, Option<Handler>> {
    map d | d in Keys(s) :: StoredHandler(s, d)
  }

  // ---------------------------------------------------------------------------
  // The lookup

  /** The first matching index is the only answer `Find` can give. */
  lemma FindIs(s: seq<HandlerData>, dpy: Display, i: nat)
    requires i < |s| && s[i].dpy == dpy
    requires forall j :: 0 <= j < i ==> s[j].dpy != dpy
    ensures Find(s, dpy) == Some(i)
  {
  }

  /** An entry exists for `dpy` exactly when the lookup finds one. */
  lemma KeysFind(s: seq<HandlerData>, dpy: Display)
    ensures dpy in Keys(s) <==> Find(s, dpy).Some?
  {
  }

  /** Lookup depends only on the displays of the entries, not on their handlers. */
  lemma FindSameDisplays(s: seq<HandlerData>, t: seq<HandlerData>, dpy: Display)
    requires |s| == |t|
    requires forall j :: 0 <= j < |s| ==> s[j].dpy == t[j].dpy
    ensures Find(s, dpy) == Find(t, dpy)
  {
  }

  /** Appending an entry leaves every earlier lookup result as it was. */
  lemma FindAppend(s: seq<HandlerData>, e: HandlerData, dpy: Display)
    ensures Find(s + [e], dpy) ==
      if Find(s, dpy).Some? then Find(s, dpy)
      else if e.dpy == dpy then Some(|s|)
      else None
  {
    var t := s + [e];
    match Find(s, dpy)
    case Some(i) => FindIs(t, dpy, i);
    case None =>
      if e.dpy == dpy {
        FindIs(t, dpy, |s|);
      } else {
        assert forall j :: 0 <= j < |t| ==> t[j].dpy != dpy by {
          forall j | 0 <= j < |t| ensures t[j].dpy != dpy {
            if j < |s| { assert t[j] == s[j]; }
          }
        }
      }
  }

  // ---------------------------------------------------------------------------
  // One XDisplaySetErrorHandler call

  /** The shape of the update: in-place overwrite of the found entry, or one new last entry. */
  lemma UpdatedShape(s: seq<HandlerData>, dpy: Display, h: Option<Handler>)
    ensures Find(s, dpy).Some? ==>
      var i := Find(s, dpy).value;
      |Updated(s, dpy, h)| == |s| && Updated(s, dpy, h)[i] == HandlerData(dpy, h) &&
      forall j :: 0 <= j < |s| && j != i ==> Updated(s, dpy, h)[j] == s[j]
    ensures Find(s, dpy).None? ==>
      |Updated(s, dpy, h)| == |s| + 1 && Updated(s, dpy, h)[|s|] == HandlerData(dpy, h) &&
      Updated(s, dpy, h)[..|s|] == s
  {
  }

  /** An append happens only when no entry is for `dpy`, so displays stay unique. */
  lemma UpdatedKeepsUnique(s: seq<HandlerData>, dpy: Display, h: Option<Handler>)
    requires Unique(s)
    ensures Unique(Updated(s, dpy, h))
  {
  }

  /** After the call, `dpy` has the new handler and every other display keeps its own. */
  lemma StoredAfterUpdate(s: seq<HandlerData>, dpy: Display, h: Option<Handler>, k: Display)
    ensures StoredHandler(Updated(s, dpy, h), k) == if k == dpy then h else StoredHandler(s, k)
  {
    var t := Updated(s, dpy, h);
    match Find(s, dpy)
    case Some(i) =>
      FindSameDisplays(s, t, k);
    case None =>
      FindAppend(s, HandlerData(dpy, h), k);
  }

  /** The call adds `dpy` to the displays of the table and no other display. */
  lemma KeysAfterUpdate(s: seq<HandlerData>, dpy: Display, h: Option<Handler>)
    ensures Keys(Updated(s, dpy, h)) == Keys(s) + {dpy}
  {
    var t := Updated(s, dpy, h);
    forall k ensures k in Keys(t) <==> k in Keys(s) + {dpy} {
      KeysFind(s, k);
      KeysFind(t, k);
      match Find(s, dpy)
      case Some(i) =>
        FindSameDisplays(s, t, k);
      case None =>
        FindAppend(s, HandlerData(dpy, h), k);
    }
  }

  /** Read as a map, the call is the map update `dpy := h`. */
  lemma TableAfterUpdate(s: seq<HandlerData>, dpy: Display, h: Option<Handler>)
    ensures Table(Updated(s, dpy, h)) == Table(s)[dpy := h]
  {
    var t := Updated(s, dpy, h);
    KeysAfterUpdate(s, dpy, h);
    forall k | k in Keys(t) ensures Table(t)[k] == Table(s)[dpy := h][k] {
      StoredAfterUpdate(s, dpy, h, k);
    }
  }

  /** Setting `h1` and then `h2` for one display makes the second call return `h1`. */
  lemma SetTwiceReturnsFirst(s: seq<HandlerData>, dpy: Display, h1: Option<Handler>, h2: Option<Handler>)
    ensures StoredHandler(Updated(s, dpy, h1), dpy) == h1
    ensures StoredHandler(Updated(Updated(s, dpy, h1), dpy, h2), dpy) == h2
  {
    StoredAfterUpdate(s, dpy, h1, dpy);
    StoredAfterUpdate(Updated(s, dpy, h1), dpy, h2, dpy);
  }

  // ---------------------------------------------------------------------------
  // Dispatch

  /**
   * The dispatch rule read off the map the table stands for: the display's
   * non-NULL handler, else the non-NULL fallback, else return 0.
   */
  lemma SelectByTable(s: seq<HandlerData>, fallback: Option<Handler>, dpy: Display)
    ensures Select(s, fallback, dpy) ==
      if dpy in Table(s) && Table(s)[dpy].Some? then Invoke(Table(s)[dpy].value)
      else if fallback.Some? then Invoke(fallback.value)
      else ReturnZero
  {
  }

  /** With no entry, or a NULL one, for `dpy`, dispatch goes to the fallback or returns 0. */
  lemma DispatchFallback(s: seq<HandlerData>, fallback: Option<Handler>, dpy: Display)
    requires dpy !in Keys(s) || StoredHandler(s, dpy).None?
    ensures Select(s, fallback, dpy) == if fallback.Some? then Invoke(fallback.value) else ReturnZero
  {
  }

  /**
   * After `XDisplaySetErrorHandler(dpy, h)`: dispatch for `dpy` selects `h`
   * when it is non-NULL and the fallback rule otherwise, whatever the other
   * entries hold; dispatch for every other display is as before.
   */
  lemma DispatchAfterSet(s: seq<HandlerData>, fallback: Option<Handler>, dpy: Display, h: Option<Handler>, k: Display)
    ensures k == dpy && h.Some? ==> Select(Updated(s, dpy, h), fallback, k) == Invoke(h.value)
    ensures k == dpy && h.None? ==>
      Select(Updated(s, dpy, h), fallback, k) == if fallback.Some? then Invoke(fallback.value) else ReturnZero
    ensures k != dpy ==> Select(Updated(s, dpy, h), fallback, k) == Select(s, fallback, k)
  {
    StoredAfterUpdate(s, dpy, h, k);
  }

  // ---------------------------------------------------------------------------
  // Any sequence of XDisplaySetErrorHandler calls

  /** The entries after the calls `calls[0]`, `calls[1]`, ... starting from an empty table. */
  function Replay(calls: seq<HandlerData>): seq<HandlerData>
    decreases |calls|
  {
    if |calls| == 0 then []
    else
      var last := calls[|calls| - 1];
      Updated(Replay(calls[..|calls| - 1]), last.dpy, last.handler)
  }

  /** The handler of the latest call for `dpy`, or `None` if no call was for `dpy`. */
  function LatestFor(calls: seq<HandlerData>, dpy: Display): Option<Handler>
    decreases |calls|
  {
    if |calls| == 0 then None
    else if calls[|calls| - 1].dpy == dpy then calls[|calls| - 1].handler
    else LatestFor(calls[..|calls| - 1], dpy)
  }

  /**
   * Whatever calls are made, the table holds one entry per display ever
   * passed, and the handler stored for a display is that of its latest call.
   */
  lemma {:induction false} ReplayInvariant(calls: seq<HandlerData>)
    ensures Unique(Replay(calls))
    ensures Keys(Replay(calls)) == set c | c in calls :: c.dpy
    ensures forall d :: StoredHandler(Replay(calls), d) == LatestFor(calls, d)
  {
    if |calls| > 0 {
      var prefix := calls[..|calls| - 1];
      var last := calls[|calls| - 1];
      ReplayInvariant(prefix);
      UpdatedKeepsUnique(Replay(prefix), last.dpy, last.handler);
      KeysAfterUpdate(Replay(prefix), last.dpy, last.handler);
      assert calls == prefix + [last];
      assert (set c | c in calls :: c.dpy) == (set c | c in prefix :: c.dpy) + {last.dpy};
      forall d ensures StoredHandler(Replay(calls), d) == LatestFor(calls, d) {
        StoredAfterUpdate(Replay(prefix), last.dpy, last.handler, d);
      }
    }
  }
}
