# Per-display X11 error handlers (libMaliWrapper)

Xlib keeps one error handler for the whole process. `libMaliWrapper.c` adds
`XDisplaySetErrorHandler(dpy, handler)`, which gives each `Display` its own
handler. It does this the way an Xlib patch it emulates does. On its first call
it installs a dispatch shim, `magic_error_handler`, as the process-wide handler
with `XSetErrorHandler`. It keeps the handler that was installed before as
`default_handler`. After that, each call records the handler for `dpy` in a
growable array of `{dpy, handler}` entries. It overwrites the entry for `dpy`
in place and returns the old handler, or it appends a new entry and returns
NULL. When Xlib reports an error, the shim looks up the display's entry. It
calls that entry's handler if it is non-NULL. Otherwise it calls the default
handler if that is non-NULL. Otherwise it returns 0.

The model has two modules:

- `HandlerTable` (handler_table.dfy) describes the table as values. It has the
  entry type `HandlerData` and `Find` (the linear `handlers_lookup`). It has
  `Updated`, the entries after one call, and `StoredHandler`, the handler
  stored for a display. It has `Select`, the shim's choice of handler, and
  `Table`, the map the array stands for. `Replay` gives the entries after any
  sequence of calls. The lemmas there state what one call does, what any
  sequence of calls leaves behind, and which handler dispatch selects.
- `MaliWrapper` (mali_wrapper.dfy) holds the state. Class `Registry` has the C
  statics `handlers`, `n_handlers`, `default_handler` and `initialized` as
  fields, with an array for `handlers`. Its methods are the source's
  functions. `Lookup` is the index loop. `DisplaySetErrorHandler` updates an
  entry in place, or grows the array through `Realloc` and then writes the new
  last slot. `MagicErrorHandler` only reads. Each method is proved against the
  `HandlerTable` functions. `EndToEnd` is a client that runs the whole
  scenario: register, dispatch, fall back, re-register.

Display pointers and handler pointers are `Display(address)` and
`Handler(address)`, compared only for equality. A NULL `XErrorHandler` is
`None`. The NULL `handlers` array before the first append is an empty array.
The return value of the foreign call `XSetErrorHandler`, which is the
previously installed process-wide handler, is the parameter `priorGlobal`. It
is read only on the first call. Dispatch returns *which* handler would be
called (`Invoke(h)`), or `ReturnZero`. It never calls the handler.

## Model

| member | source | states |
|---|---|---|
| `HandlerTable.Find` | drivers/wrapper/libMaliWrapper.c:34-46 | the lookup gives the lowest index whose entry is for `dpy`, or none exactly when no entry is for `dpy` |
| `HandlerTable.FindIs` | drivers/wrapper/libMaliWrapper.c:39-43 | the first matching index is the only possible lookup answer |
| `HandlerTable.KeysFind` | drivers/wrapper/libMaliWrapper.c:39-45 | the lookup finds an entry exactly when the table has an entry for that display |
| `HandlerTable.FindSameDisplays` | drivers/wrapper/libMaliWrapper.c:39-43 | the lookup looks only at the `dpy` fields, so overwriting handlers never changes its answer |
| `HandlerTable.FindAppend` | drivers/wrapper/libMaliWrapper.c:92-100 | after an append, every earlier lookup gives the same index, and the new display is found at the new last slot |
| `HandlerTable.UpdatedShape` | drivers/wrapper/libMaliWrapper.c:83-100 | a display that is present keeps its slot, gets the new handler, the length stays the same and all other slots are unchanged; a display that is absent gets one new last slot `{dpy, handler}` after the unchanged old entries |
| `HandlerTable.UpdatedKeepsUnique` | drivers/wrapper/libMaliWrapper.c:83-100 | a call never creates a second entry for a display that already has one |
| `HandlerTable.StoredAfterUpdate` | drivers/wrapper/libMaliWrapper.c:83-100 | after the call, `dpy` holds the new handler and every other display holds what it held before |
| `HandlerTable.KeysAfterUpdate` | drivers/wrapper/libMaliWrapper.c:83-100 | the call adds `dpy` to the set of registered displays and adds no other display |
| `HandlerTable.TableAfterUpdate` | drivers/wrapper/libMaliWrapper.c:83-100 | read as a map from display to handler, one call is exactly the map update `dpy := handler` |
| `HandlerTable.SetTwiceReturnsFirst` | drivers/wrapper/libMaliWrapper.c:83-86 | after setting `h1` for a display, the next call for it returns `h1`; after a further call with `h2`, the display holds `h2` |
| `HandlerTable.SelectByTable` | drivers/wrapper/libMaliWrapper.c:56-61 | dispatch picks the display's non-NULL handler, else the non-NULL default handler, else returns 0, all read off the display-to-handler map |
| `HandlerTable.DispatchFallback` | drivers/wrapper/libMaliWrapper.c:56-61 | if a display has no entry, or its entry's handler is NULL, dispatch picks the default handler if that is non-NULL and otherwise returns 0 |
| `HandlerTable.DispatchAfterSet` | drivers/wrapper/libMaliWrapper.c:56-61 | after setting `h` for `d`, dispatch for `d` picks `h` when `h` is non-NULL and falls back otherwise, whatever other displays hold; dispatch for every other display does not change |
| `HandlerTable.ReplayInvariant` | drivers/wrapper/libMaliWrapper.c:83-100 | after any sequence of calls, the table has exactly one entry for each display ever passed, and it holds the handler of that display's latest call |
| `MaliWrapper.Realloc` | drivers/wrapper/libMaliWrapper.c:94-97 | the grown array is fresh, has the requested length, and keeps the old entries in their slots |
| `MaliWrapper.Registry.constructor` | drivers/wrapper/libMaliWrapper.c:30-32 | the program starts with no entries, a NULL default handler and `initialized` unset |
| `MaliWrapper.Registry.Lookup` | drivers/wrapper/libMaliWrapper.c:34-46 | the index loop over the first `n_handlers` slots returns what `Find` specifies |
| `MaliWrapper.Registry.MagicErrorHandler` | drivers/wrapper/libMaliWrapper.c:48-62 | the shim's choice for `dpy` is `Select` of the current entries and the captured default handler |
| `MaliWrapper.Registry.DisplaySetErrorHandler` | drivers/wrapper/libMaliWrapper.c:64-107 | `initialized` becomes set; the default handler is captured from `priorGlobal` on the first call only and never changes afterwards; the new entries are `Updated` of the old ones; the result is the old stored handler (NULL on an append); an update in place keeps the array and `n_handlers`; an append gives a fresh array one slot longer; the invariant (one entry per display) is kept |
| `MaliWrapper.EndToEnd` | drivers/wrapper/libMaliWrapper.c:48-107 | C1 registered with X and C2 unregistered, with G installed before: errors on C1 go to X and errors on C2 go to G; setting C1 to NULL returns X, and after that errors on C1 go to G |

## Left out

- The pthread mutex (lines 29, 71, 104) is left out. Each `XDisplaySetErrorHandler` call is one atomic sequential step.
- `magic_error_handler` reads the table without the lock. This is a concurrency matter and is not modelled.
- Allocation failure of `realloc`/`calloc` is not modelled. The source does not check for a NULL result, so a failure would crash on the write that follows. `Realloc` always succeeds.
- Actually calling the selected handler, its integer result and the `XErrorEvent` payload are left out. `MagicErrorHandler` returns which handler would be called and does not return that handler's result.
- `XSetErrorHandler` is an Xlib function and is not part of this model. Its answer is the parameter `priorGlobal`, and the Xlib-side handler slot it changes is not modelled.
- The `DEBUG_MSG` logging (lines 8-12) is diagnostic output only.
- The error-protocol meaning of the 0 returned when no handler exists is left to Xlib.
