# SKQueue, modelled in Dafny

SKQueue is a small Swift wrapper around the BSD `kqueue` file-event facility.
A client asks an `SKQueue` to watch a path for a set of change kinds: rename,
write, delete, attribute change, size increase, link-count change and access
revocation. The queue opens the path and keeps one `SKQueuePath` entry per
watched path. Each entry is registered with the kernel as a vnode filter. A
background watcher loop polls the kernel and passes every event to the
delegate as a notification set. By default the delegate splits that set into
one callback per change name.

This project models that core in three modules:

- `Notification` (`notification.dfy`) is the option set `SKQueueNotification`.
  - Its raw value is a 32-bit `bv32`. It has the seven single-bit constants,
    `None` and `Default`.
  - Option-set membership (`contains`) is `Contains`. Its `insert` is `Union`.
  - `toStrings` is a method with the source's seven successive appends. It is
    proved against the specification function `Names`.
  - Lemmas prove the properties of `Names`: membership, order, uniqueness,
    the bits it ignores, and round trips with `FromNames`, which builds a set
    from names.
- `Delegate` (`delegate.dfy`) is the default set-callback. It fans one set out
  into per-name callbacks, in order.
- `Queue` (`queue.dfy`) holds the watch registry:
  - `ev_create`, modelled as `EvCreate`;
  - `SKQueuePath` as a class whose set is updated in place;
  - `SKQueue` as a class with a `watchedPaths` map, the
    `keepWatcherThreadRunning` flag, a ghost log of every kernel registration
    and a ghost count of watcher-task launches;
  - the watcher loop's dispatch guard;
  - the loop itself, run over a given sequence of poll results.

The system calls are oracles. What `open` and `kqueue()` return is a method
parameter (`openResult`, `kqueueResult`). Each `kevent` registration is
appended to the ghost `registrations` log.

The class invariant `SKQueue.Valid` holds for a live queue:

- every entry is filed under its own path and holds a non-negative descriptor;
- every entry's stored set is the union of all the sets registered for that
  entry (`Requested`);
- exactly one watcher task has been started when the flag is set, and none
  otherwise;
- the flag is set exactly when something has been registered.

Four behaviours of the code are kept as written:

- Line 147 re-arms the filter with the newly requested set only, even though
  the stored set becomes the union (line 133). `SKQueue.ReArmed` states this.
  `ReAddWithNewBits` exhibits it on a concrete path.
- A later request that the stored set already contains returns at line 131
  without re-arming. So the kernel filter can stay armed for fewer bits than
  the entry stores. `ReAddContainedAfterReArm` exhibits it.
- `removePath` only drops the map key. Because of `passRetained`, the entry,
  and so its descriptor, is never released (see "Left out").
- `deinit` can run only on a queue that never registered anything. Line 156
  hands `self.watcherThread` to `dispatch_async`, and that closure holds the
  queue strongly until its loop (line 165) sees the flag clear. Only `deinit`
  (line 122) clears the flag, so once a watcher task is started, the queue,
  its kqueue descriptor and the polling loop are never released. `Deinit`
  therefore requires a valid queue with the flag clear. It proves that the
  map and the registration log were already empty, so both of its statements
  change nothing.

## Model

| member | source | states |
|---|---|---|
| Notification.SKQueueNotification.Contains | SKQueue.swift:130 | Option-set membership: every bit of the argument is set. Its meaning is stated by `NamesMembership`, `ContainsIffUnionUnchanged` and `ContainsTransitive`. |
| Notification.SKQueueNotification.Union | SKQueue.swift:133 | `insert`, the bitwise union stored in place. Its meaning is stated by `UnionContainsLeft`, `UnionContainsRight`, `UnionIsLeast` and `ContainsIffUnionUnchanged`. |
| Notification.ConstantsAreDistinctBits | SKQueue.swift:66-74 | `None` is 0. The seven named constants are `1 << 0` … `1 << 6` in declaration order and pairwise disjoint. `Default` is the union of the seven. |
| Notification.SKQueueNotification.ToStrings | SKQueue.swift:76-86 | The seven conditional appends produce exactly `Names(this)`, the ordered list of the set's names. |
| Notification.NamesMembership | SKQueue.swift:76-86 | A name is in `toStrings`'s result if and only if the set contains that name's bit. |
| Notification.NamesOrderedAndDistinct | SKQueue.swift:76-86 | `toStrings` lists names in strictly increasing declaration order, so each name appears at most once. |
| Notification.HighBitsIgnored | SKQueue.swift:64-86 | Bits above 0x7F of the 32-bit raw value do not change the list of names. |
| Notification.NamesRoundTrip | SKQueue.swift:63-86 | Rebuilding a set from its names gives the set with the bits above 0x7F cleared. For a subset of `Default` it gives the set itself. |
| Notification.NamesOfFromNames | SKQueue.swift:76-86 | For any strictly ordered list of names, the names of the set built from it are that list. |
| Notification.NamesInMembership | SKQueue.swift:76-86 | Filtering any list of names by a set keeps exactly the listed names whose bits are set. |
| Notification.OrderedWithSameNamesEqual | SKQueue.swift:76-86 | Two strictly ordered name lists with the same members are equal, so the order of `toStrings` is the only order it can have. |
| Notification.ContainsIffUnionUnchanged | SKQueue.swift:130-133 | `insert` of a contained set leaves the set unchanged, and only a contained set does. So the early return at line 131 leaves the stored set exactly as `insert` would have left it. It does skip the re-arm at line 152, which `ReAddContainedAfterReArm` shows. |
| Notification.UnionContainsLeft | SKQueue.swift:133 | After `insert`, the stored set still contains the old set. |
| Notification.UnionContainsRight | SKQueue.swift:133 | After `insert`, the stored set contains the requested set. |
| Notification.UnionIsLeast | SKQueue.swift:133 | `insert` adds no bits beyond those of the two operands. |
| Notification.ContainsTransitive | SKQueue.swift:130 | Option-set containment is transitive. |
| Delegate.ReceivedNotification | SKQueue.swift:45-48 | The default set-callback makes one per-name callback for each element of `toStrings`, in that order, all for the given path. There is a callback for a name exactly when its bit is set, and no callback is repeated. |
| Queue.EvCreate | SKQueue.swift:28-37 | The record has exactly the given ident, filter, flags, fflags, data and udata. |
| Queue.Registration | SKQueue.swift:143-150 | The record built for the kernel: ident = the entry's descriptor, filter = EVFILT_VNODE, flags = EV_ADD, EV_ENABLE and EV_CLEAR combined, fflags = the requested set's raw value, data = 0, udata = the entry. `RegisteredEventDispatch` and `RequestedAppendOwn` state how it is read back. |
| Queue.SKQueuePath.Open | SKQueue.swift:93-100 | The initialiser fails exactly when `open` returned a negative descriptor. Otherwise it gives a new entry with the path, that descriptor and the requested set. |
| Queue.SKQueue.Create | SKQueue.swift:114-119 | The initialiser fails exactly when `kqueue()` returned -1. Otherwise it gives a valid, empty queue with the flag clear, no registrations and no watcher task. |
| Queue.SKQueue.AddPathToQueue | SKQueue.swift:126-160 | It preserves `Valid` and makes the change `AddedPath` describes. The result is the path's entry, or null exactly when the path was unwatched and `open` failed. |
| Queue.SKQueue.ReArm | SKQueue.swift:129-159 | When a watched path's set lacks some requested bits: keys and entries stay the same and the stored set becomes old ∪ requested. No other set changes. Exactly one registration is logged, with fflags equal to the requested set alone. |
| Queue.SKQueue.WatchNew | SKQueue.swift:134-159 | For an unwatched path whose `open` fails, nothing changes and the result is null. When `open` succeeds: exactly that key is added, holding a new entry with the descriptor and the requested set. The count grows by one, and one registration is logged with ident = descriptor, filter = EVFILT_VNODE, flags = EV_ADD, EV_ENABLE and EV_CLEAR combined, and data = 0. |
| Queue.SKQueue.Register | SKQueue.swift:142-157 | Exactly one record `Registration(entry, requested)` is logged. Afterwards the flag is set, and the launch count grew by one exactly when the flag was clear before. |
| Queue.SKQueue.AddPath | SKQueue.swift:181-185 | The state change is the same as `addPathToQueue`'s, and `Default` is the default set. |
| Queue.SKQueue.RemovePath | SKQueue.swift:187-189 | Only the path's key is removed, and nothing happens when it is absent. The registration log, the flag and the launch count are unchanged, and `Valid` is preserved. |
| Queue.SKQueue.RemoveAllPaths | SKQueue.swift:191-193 | The map becomes empty, so the count is 0. The log, the flag and the launch count are unchanged, and a valid queue stays valid. |
| Queue.SKQueue.NumberOfWatchedPaths | SKQueue.swift:195-197 | The count is the number of keys in the map. |
| Queue.SKQueue.Deinit | SKQueue.swift:121-124 | It runs only on a valid queue whose flag is clear, since a started watcher task holds the queue (line 156). It proves that the map and the registration log were already empty and no task was started. Afterwards the flag is clear and the map is empty. |
| Queue.ShouldDispatch | SKQueue.swift:167 | The watcher loop's guard: an event was read, it comes from the vnode filter, and it reports at least one change. Its meaning is stated by `DeliveriesExact`, `DeliveredSetsAreNonEmpty` and `RegisteredEventDispatch`. |
| Queue.WatcherThread | SKQueue.swift:162-179 | The loop delivers exactly `Deliveries(polls)`: for each poll that passes the guard, in order, the reported set and the path of the entry the event carries. |
| Queue.DeliveriesExact | SKQueue.swift:165-173 | A notification is delivered if and only if some poll passed the guard at line 167 with that set, for that entry's path. |
| Queue.DeliveriesBounded | SKQueue.swift:165-173 | Each poll delivers at most one notification. |
| Queue.DeliveredSetsAreNonEmpty | SKQueue.swift:167 | No delivered notification is the empty set. |
| Queue.RegisteredEventDispatch | SKQueue.swift:143-171 | Take an event read back for a registration made by `addPathToQueue`. It passes the guard exactly when its fflags are non-zero. It is then delivered for the entry's path with those bits. |
| Queue.RequestedAppendOwn | SKQueue.swift:133-147 | A registration for an entry adds the requested set to that entry's registered union. This is what keeps the stored set equal to that union. |
| Queue.RequestedUnchangedForOthers | SKQueue.swift:143-152 | A registration for one entry leaves every other entry's registered union unchanged. |
| Queue.RequestedOfFresh | SKQueue.swift:135-139 | An entry that has never been registered has the empty registered union. |
| Queue.ReAddWithNewBits | SKQueue.swift:126-160 | A path is watched for Delete and then re-added for Write. The queue stays valid, and the entry under the path stores Delete ∪ Write. The second registration carries Write alone. Two registrations are logged and one watcher task is started. |
| Queue.ReAddContainedAfterReArm | SKQueue.swift:126-160 | A path is added for Delete, then Write, then Delete again. The third call returns early and registers nothing. The entry under the path stores a set containing Delete, but the last registration carries Write alone. |

## Left out

- The `open`, `kqueue()`, `kevent` and `close` system calls have no kernel semantics here. Their results are parameters, and registrations go to a ghost log. The return value of the registering `kevent` call is ignored by the source as well.
- `dispatch_async` to the global queue and the main queue is left out as concurrency. Starting the watcher is a ghost launch counter. The loop is run over the sequence of polls it makes; since nothing ever clears the flag while a watcher task exists (see `Deinit`), that loop never ends in the source. The loop also assumes that every event passing the line-167 guard carries a non-null `udata` (`CarriesEntries`). This holds because the kernel returns events only for this queue's own registrations, and each of those carries its entry (`Registration`). A nil `udata` would crash at line 168.
- The watcher loop's one-second poll timeout is left out as timing. So is the record the loop keeps from an earlier poll when a poll returns no event; the guard's `n > 0` test makes that record irrelevant.
- The `Unmanaged.passRetained` / `fromOpaque` round trip through `udata` is left out as manual memory management. It becomes the entry reference stored in the record. As a consequence of the retain, `removePath` and `removeAllPaths` do not close the entry's descriptor in the source. The model has no descriptor closing at all.
- `SKQueuePath.deinit` closing the descriptor, and the watcher loop's final `close` with its error log, are left out as resource cleanup.
- `NSLog` output (the only effect of a failed `addPath`) and the AppKit import are left out as I/O.
- The delegate is optional. Whether one is attached, and the queue argument passed to it, are not modelled. `Delegate.ReceivedNotification` gives the callbacks that the default method makes.
- The integer conversions `UInt(fd)`, `Int16(EVFILT_VNODE)` and `UInt16(...)` are left as plain values, because the descriptor is non-negative wherever it is converted. The values of EVFILT_VNODE, EV_ADD, EV_ENABLE and EV_CLEAR are Darwin's `sys/event.h` definitions; that header is not part of this model.
- Paths are compared as exact code-point sequences. Swift's `String` equality and `[String: SKQueuePath]` treat canonically equivalent strings as one key, for example a precomposed "é" and "e" followed by a combining acute accent. In the source, adding the second spelling finds the first's entry (line 127) and `removePath` of either spelling removes it (line 188). In this model the two spellings are different keys.
- `SKQueuePath.path` and `SKQueuePath.fileDescriptor` are `var` in the source but never reassigned, so they are `const` here.
- Queue.SKQueue.Deinit: states the final state only, not that the flag is cleared before the paths are removed. That order cannot be observed: `deinit` runs only on a queue that never started a watcher task, where both statements change nothing.
