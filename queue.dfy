/** The watch registry of SKQueue (SKQueue.swift:28-37, 89-198): the kevent
    record, the per-path entry, the queue object that maps paths to entries
    and registers each one with the kernel, and the watcher loop's dispatch
    guard.

    The system calls are oracles: the result of `open` and of `kqueue` is a
    parameter, every `kevent` registration is appended to a ghost log, and the
    events the watcher loop reads are a sequence given to it. */
module Queue {
  import opened Notification

  // ---------------------------------------------------------------------------
  // The kevent record

  /** EVFILT_VNODE, the vnode filter of Darwin's sys/event.h. */
  const EVFILT_VNODE: int := -4
  /** EV_ADD, EV_ENABLE and EV_CLEAR, the action flags of Darwin's sys/event.h. */
  const EV_ADD: bv16 := 0x0001
  const EV_ENABLE: bv16 := 0x0004
  const EV_CLEAR: bv16 := 0x0020

  /** A kernel event record: the watched descriptor, the filter, the action
      flags, the filter flags (the notification bits), filter data and the
      caller's pointer, here the entry it was registered for. */
  datatype KEvent = KEvent(ident: int, filter: int, flags: bv16, fflags: bv32, data: int, udata: SKQueuePath?)

  /** The zero-initialised record `kevent()`. */
  const ZeroKEvent: KEvent := KEvent(0, 0, 0, 0, 0, null)

  /** `ev_create`: a zeroed record filled in field by field. */
  method EvCreate(ident: int, filter: int, flags: bv16, fflags: bv32, data: int, udata: SKQueuePath?)
    returns (ev: KEvent)
    ensures ev.ident == ident && ev.filter == filter && ev.flags == flags
    ensures ev.fflags == fflags && ev.data == data && ev.udata == udata
  {
    ev := ZeroKEvent;
    ev := ev.(ident := ident);
    ev := ev.(filter := filter);
    ev := ev.(flags := flags);
    ev := ev.(fflags := fflags);
    ev := ev.(data := data);
    ev := ev.(udata := udata);
  }

  /** The record `addPathToQueue` hands to the kernel for `entry`: a vnode
      filter on the entry's descriptor, added, enabled and edge-triggered,
      for the bits of the requested set. */
  function Registration(entry: SKQueuePath, requested: SKQueueNotification): KEvent {
    KEvent(entry.fileDescriptor, EVFILT_VNODE, EV_ADD | EV_ENABLE | EV_CLEAR, requested.rawValue, 0, entry)
  }

  // ---------------------------------------------------------------------------
  // Entries

  /** A watched path: its descriptor and the set of changes it is watched for.
      Only the set is updated after creation. */
  class SKQueuePath {
    const path: string
    const fileDescriptor: int
    var notification: SKQueueNotification

    constructor (path: string, fileDescriptor: int, notification: SKQueueNotification)
      ensures this.path == path && this.fileDescriptor == fileDescriptor
      ensures this.notification == notification
    {
      this.path := path;
      this.fileDescriptor := fileDescriptor;
      this.notification := notification;
    }

    /** `init?`: `openResult` is what `open` returned for the path; a negative
        descriptor makes the initialiser fail. */
    static method Open(path: string, notification: SKQueueNotification, openResult: int)
      returns (entry: SKQueuePath?)
      ensures entry == null <==> openResult < 0
      ensures entry != null ==>
                && fresh(entry) && entry.path == path
                && entry.fileDescriptor == openResult && entry.notification == notification
    {
      if openResult < 0 {
        return null;
      }
      entry := new SKQueuePath(path, openResult, notification);
    }
  }

  /** The union of the sets requested for `entry` across a registration log. */
  function Requested(log: seq<KEvent>, entry: SKQueuePath): SKQueueNotification {
    if log == [] then SKQueueNotification.None
    else
      var last := log[|log| - 1];
      Requested(log[..|log| - 1], entry).Union(
        if last.udata == entry then SKQueueNotification(last.fflags) else SKQueueNotification.None)
  }

  // ---------------------------------------------------------------------------
  // The queue

  class SKQueue {
    const kqueueId: int
    var watchedPaths: map<string, SKQueuePath>
    var keepWatcherThreadRunning: bool
    /** Every record passed to `kevent` for registration, oldest first. */
    ghost var registrations: seq<KEvent>
    /** How many watcher tasks have been started. */
    ghost var launches: nat

    /** A live queue: every entry is filed under its own path and holds an
        open descriptor and the union of all sets registered for it; one
        watcher task runs exactly when the flag is set, which happens with
        the first registration. */
    ghost predicate Valid()
      reads this, watchedPaths.Values
    {
      && kqueueId != -1
      && (forall p :: p in watchedPaths ==> watchedPaths[p].path == p && watchedPaths[p].fileDescriptor >= 0)
      && (forall p :: p in watchedPaths ==> watchedPaths[p].notification == Requested(registrations, watchedPaths[p]))
      && launches == (if keepWatcherThreadRunning then 1 else 0)
      && (keepWatcherThreadRunning <==> registrations != [])
      && (watchedPaths != map[] ==> registrations != [])
    }

    constructor (kqueueId: int)
      requires kqueueId != -1
      ensures Valid() && this.kqueueId == kqueueId
      ensures watchedPaths == map[] && !keepWatcherThreadRunning
      ensures registrations == [] && launches == 0
    {
      this.kqueueId := kqueueId;
      watchedPaths := map[];
      keepWatcherThreadRunning := false;
      registrations := [];
      launches := 0;
    }

    /** `init?`: `kqueueResult` is what `kqueue()` returned; the initialiser
        fails exactly when it is -1. */
    static method Create(kqueueResult: int) returns (q: SKQueue?)
      ensures q == null <==> kqueueResult == -1
      ensures q != null ==>
                && fresh(q) && q.Valid() && q.kqueueId == kqueueResult
                && q.watchedPaths == map[] && !q.keepWatcherThreadRunning
                && q.registrations == [] && q.launches == 0
    {
      if kqueueResult == -1 {
        return null;
      }
      q := new SKQueue(kqueueResult);
    }

    /** No field of the queue and no entry's set has changed. */
    twostate predicate Unchanged()
      reads this, watchedPaths.Values
    {
      && watchedPaths == old(watchedPaths)
      && (forall p :: p in watchedPaths ==> watchedPaths[p].notification == old(watchedPaths[p].notification))
      && registrations == old(registrations)
      && keepWatcherThreadRunning == old(keepWatcherThreadRunning)
      && launches == old(launches)
    }

    /** After a registration the flag is set, and a watcher task was started
        only if it was not set before. */
    twostate predicate Started()
      reads this
    {
      && keepWatcherThreadRunning
      && launches == old(launches) + (if old(keepWatcherThreadRunning) then 0 else 1)
    }

    /** A watched path got new bits: the map keeps its keys and entries, the
        path's stored set grows by the requested set, no other set changes,
        and the kernel is re-armed with the requested set alone. */
    twostate predicate ReArmed(path: string, notification: SKQueueNotification)
      requires path in old(watchedPaths)
      reads this, watchedPaths.Values
    {
      var entry := old(watchedPaths[path]);
      && watchedPaths == old(watchedPaths)
      && entry.notification == old(entry.notification).Union(notification)
      && (forall p :: p in watchedPaths && p != path ==>
            watchedPaths[p].notification == old(watchedPaths[p].notification))
      && registrations == old(registrations) + [Registration(entry, notification)]
      && Started()
    }

    /** An unwatched path was opened as descriptor `fd`: exactly its key is
        added, holding a new entry with the requested set, no other set
        changes, and the entry is registered with the kernel. */
    twostate predicate Inserted(path: string, notification: SKQueueNotification, fd: int)
      reads this, watchedPaths.Values
    {
      && path in watchedPaths
      && var entry := watchedPaths[path];
      && fresh(entry)
      && watchedPaths == old(watchedPaths)[path := entry]
      && |watchedPaths| == |old(watchedPaths)| + 1
      && entry.path == path && entry.fileDescriptor == fd && entry.notification == notification
      && (forall p :: p in old(watchedPaths) ==>
            watchedPaths[p].notification == old(watchedPaths[p].notification))
      && registrations == old(registrations) + [Registration(entry, notification)]
      && Started()
    }

    /** The state change of one call of `addPathToQueue(path, notification)`
        when `open` would return `openResult`. */
    twostate predicate AddedPath(path: string, notification: SKQueueNotification, openResult: int)
      reads this, watchedPaths.Values
    {
      if path in old(watchedPaths) then
        if old(watchedPaths[path].notification).Contains(notification) then Unchanged()
        else ReArmed(path, notification)
      else if openResult < 0 then Unchanged()
      else Inserted(path, notification, openResult)
    }

    /** `addPathToQueue`: watch `path` for `notification`, where `open` would
        return `openResult`; answers the entry, or null when open failed. */
    method AddPathToQueue(path: string, notification: SKQueueNotification, openResult: int)
      returns (entry: SKQueuePath?)
      requires Valid()
      modifies this, watchedPaths.Values
      ensures Valid()
      ensures AddedPath(path, notification, openResult)
      ensures entry == if path in old(watchedPaths) || openResult >= 0 then watchedPaths[path] else null
    {
      if path in watchedPaths {
        entry := watchedPaths[path];
        if entry.notification.Contains(notification) {
          return entry;
        }
        ReArm(path, notification);
      } else {
        entry := WatchNew(path, notification, openResult);
      }
    }

    /** The already-watched branch of `addPathToQueue` for a set with new
        bits: `insert` into the shared entry, then register. */
    method ReArm(path: string, notification: SKQueueNotification)
      requires Valid() && path in watchedPaths
      requires !watchedPaths[path].notification.Contains(notification)
      modifies this, watchedPaths[path]
      ensures Valid() && ReArmed(path, notification)
    {
      var entry := watchedPaths[path];
      RequestedUnchangedForOthers(registrations, Registration(entry, notification));
      RequestedAppendOwn(registrations, entry, notification);
      entry.notification := entry.notification.Union(notification);
      Register(entry, notification);
    }

    /** The unwatched branch of `addPathToQueue`: open the path, file the new
        entry under it and register it; null when open fails. */
    method WatchNew(path: string, notification: SKQueueNotification, openResult: int)
      returns (entry: SKQueuePath?)
      requires Valid() && path !in watchedPaths
      modifies this
      ensures Valid()
      ensures entry == null <==> openResult < 0
      ensures entry == null ==> Unchanged()
      ensures entry != null ==> Inserted(path, notification, openResult) && entry == watchedPaths[path]
    {
      entry := SKQueuePath.Open(path, notification, openResult);
      if entry == null {
        return;
      }
      ghost var log := registrations;
      ghost var before := watchedPaths;
      assert forall i :: 0 <= i < |log| ==> log[i].udata != entry;
      RequestedOfFresh(log, entry);
      RequestedAppendOwn(log, entry, notification);
      NoneUnionIsIdentity(notification);
      RequestedUnchangedForOthers(log, Registration(entry, notification));
      watchedPaths := watchedPaths[path := entry];
      Register(entry, notification);
      forall p | p in watchedPaths
        ensures watchedPaths[p].notification == Requested(registrations, watchedPaths[p])
      {
        if p != path {
          assert watchedPaths[p] == before[p] != entry;
        }
      }
    }

    /** The tail of `addPathToQueue`: one `kevent` registration of `entry`
        for the requested set, then the watcher task is started unless the
        flag says it runs already. */
    method Register(entry: SKQueuePath, notification: SKQueueNotification)
      modifies this`registrations, this`keepWatcherThreadRunning, this`launches
      ensures registrations == old(registrations) + [Registration(entry, notification)]
      ensures Started()
    {
      var ev := EvCreate(entry.fileDescriptor, EVFILT_VNODE, EV_ADD | EV_ENABLE | EV_CLEAR,
                         notification.rawValue, 0, entry);
      registrations := registrations + [ev];

      if !keepWatcherThreadRunning {
        keepWatcherThreadRunning := true;
        launches := launches + 1;
      }
    }

    /** `addPath`: `addPathToQueue` with the result dropped (a null result is
        only logged). */
    method AddPath(path: string, openResult: int, notification: SKQueueNotification := SKQueueNotification.Default)
      requires Valid()
      modifies this, watchedPaths.Values
      ensures Valid()
      ensures AddedPath(path, notification, openResult)
    {
      var _ := AddPathToQueue(path, notification, openResult);
    }

    /** `removePath`: forget the entry of `path`, if any. */
    method RemovePath(path: string)
      requires Valid()
      modifies this
      ensures Valid()
      ensures watchedPaths == old(watchedPaths) - {path}
      ensures registrations == old(registrations)
      ensures keepWatcherThreadRunning == old(keepWatcherThreadRunning) && launches == old(launches)
    {
      watchedPaths := watchedPaths - {path};
    }

    /** `removeAllPaths`: forget every entry. */
    method RemoveAllPaths()
      modifies this
      ensures old(Valid()) ==> Valid()
      ensures watchedPaths == map[]
      ensures registrations == old(registrations)
      ensures keepWatcherThreadRunning == old(keepWatcherThreadRunning) && launches == old(launches)
    {
      watchedPaths := map[];
    }

    /** `numberOfWatchedPaths`: the number of watched paths. */
    method NumberOfWatchedPaths() returns (count: int)
      ensures count == |watchedPaths.Keys|
    {
      count := |watchedPaths|;
    }

    /** `deinit`: the watcher loop is told to stop, then every entry is
        forgotten. The watcher task started at line 156 holds the queue until
        its loop sees the flag clear, and only `deinit` clears it, so `deinit`
        runs only on a queue that never started one; there both statements
        change nothing. */
    method Deinit()
      requires Valid() && !keepWatcherThreadRunning
      modifies this
      ensures !keepWatcherThreadRunning && watchedPaths == map[]
      ensures old(watchedPaths) == map[] && old(registrations) == []
      ensures registrations == old(registrations) && launches == old(launches) == 0
    {
      keepWatcherThreadRunning := false;
      RemoveAllPaths();
    }
  }

  // ---------------------------------------------------------------------------
  // The watcher loop

  /** One `kevent` poll of the watcher loop: the number of events returned
      and the record it filled in. */
  datatype Poll = Poll(n: int, ev: KEvent)

  /** One notification handed to the main queue for the delegate. */
  datatype Delivery = Delivery(notification: SKQueueNotification, path: string)

  /** The guard of the watcher loop: an event was read, it comes from the
      vnode filter and it reports at least one change. */
  predicate ShouldDispatch(poll: Poll) {
    poll.n > 0 && poll.ev.filter == EVFILT_VNODE && poll.ev.fflags != 0
  }

  /** Every event that passes the guard carries the entry it was registered
      for, which the loop dereferences. */
  predicate CarriesEntries(polls: seq<Poll>) {
    forall i :: 0 <= i < |polls| && ShouldDispatch(polls[i]) ==> polls[i].ev.udata != null
  }

  /** What one poll hands to the main queue. */
  function Dispatched(poll: Poll): seq<Delivery>
    requires ShouldDispatch(poll) ==> poll.ev.udata != null
  {
    if ShouldDispatch(poll) then [Delivery(SKQueueNotification(poll.ev.fflags), poll.ev.udata.path)] else []
  }

  /** What a run of polls hands to the main queue, in order. */
  function Deliveries(polls: seq<Poll>): seq<Delivery>
    requires CarriesEntries(polls)
  {
    if polls == [] then []
    else Deliveries(polls[..|polls| - 1]) + Dispatched(polls[|polls| - 1])
  }

  /** `watcherThread`: the loop body for each poll made while the flag stayed
      set; `polls` are the results of those `kevent` calls. */
  method WatcherThread(polls: seq<Poll>) returns (deliveries: seq<Delivery>)
    requires CarriesEntries(polls)
    ensures deliveries == Deliveries(polls)
  {
    deliveries := [];
    var i := 0;
    while i < |polls|
      invariant 0 <= i <= |polls|
      invariant deliveries == Deliveries(polls[..i])
    {
      var poll := polls[i];
      assert polls[..i + 1][..i] == polls[..i];
      if poll.n > 0 && poll.ev.filter == EVFILT_VNODE && poll.ev.fflags != 0 {
        var pathEntry := poll.ev.udata;
        var notification := SKQueueNotification(poll.ev.fflags);
        deliveries := deliveries + [Delivery(notification, pathEntry.path)];
      }
      i := i + 1;
    }
    assert polls[..|polls|] == polls;
  }

  /** A run of polls delivers at most one notification per poll. */
  lemma {:induction false} DeliveriesBounded(polls: seq<Poll>)
    requires CarriesEntries(polls)
    ensures |Deliveries(polls)| <= |polls|
  {
    if polls != [] {
      DeliveriesBounded(polls[..|polls| - 1]);
    }
  }

  /** A notification is delivered exactly when some poll passed the guard
      with that set of bits, for the path of the entry it carried. */
  lemma {:induction false} DeliveriesExact(polls: seq<Poll>, d: Delivery)
    requires CarriesEntries(polls)
    ensures d in Deliveries(polls) ==>
              exists i :: 0 <= i < |polls| && ShouldDispatch(polls[i]) && d == Dispatched(polls[i])[0]
    ensures (exists i :: 0 <= i < |polls| && ShouldDispatch(polls[i]) && d == Dispatched(polls[i])[0]) ==>
              d in Deliveries(polls)
  {
    if polls != [] {
      var init, last := polls[..|polls| - 1], polls[|polls| - 1];
      DeliveriesExact(init, d);
      if d in Deliveries(polls) && d !in Deliveries(init) {
        assert ShouldDispatch(last) && d == Dispatched(last)[0];
      }
      if i :| 0 <= i < |polls| && ShouldDispatch(polls[i]) && d == Dispatched(polls[i])[0] {
        if i < |init| {
          assert init[i] == polls[i];
        }
      }
    }
  }

  /** Every delivered notification reports at least one change. */
  lemma DeliveredSetsAreNonEmpty(polls: seq<Poll>, d: Delivery)
    requires CarriesEntries(polls) && d in Deliveries(polls)
    ensures d.notification != SKQueueNotification.None
  {
    DeliveriesExact(polls, d);
  }

  /** An event read back for a registration made by `addPathToQueue` passes
      the guard exactly when it reports a change, and is delivered for the
      path of the entry it was registered for with the reported bits. */
  lemma RegisteredEventDispatch(entry: SKQueuePath, requested: SKQueueNotification, n: int, fired: bv32)
    requires n > 0
    ensures ShouldDispatch(Poll(n, Registration(entry, requested).(fflags := fired))) <==> fired != 0
    ensures fired != 0 ==>
              Dispatched(Poll(n, Registration(entry, requested).(fflags := fired)))
              == [Delivery(SKQueueNotification(fired), entry.path)]
  {
  }

  // ---------------------------------------------------------------------------
  // Re-adding a path with disjoint bits

  /** A path watched for Delete and then re-added for Write: the entry stores
      both bits, but the second registration arms the kernel for Write alone,
      and only one watcher task is started. */
  method ReAddWithNewBits() returns (q: SKQueue?, stored: SKQueueNotification)
    ensures q != null && q.Valid() && q.launches == 1 && |q.registrations| == 2
    ensures "/watched" in q.watchedPaths && q.watchedPaths["/watched"].notification == stored
    ensures stored == SKQueueNotification.Delete.Union(SKQueueNotification.Write)
    ensures q.registrations[1].fflags == SKQueueNotification.Write.rawValue
    ensures stored.rawValue != q.registrations[1].fflags
  {
    q := SKQueue.Create(3);
    var first := q.AddPathToQueue("/watched", SKQueueNotification.Delete, 4);
    var second := q.AddPathToQueue("/watched", SKQueueNotification.Write, 5);
    stored := second.notification;
  }

  /** Delete, then Write, then Delete again on one path: the third call finds
      Delete in the stored set and returns early, so it registers nothing, and
      the last registration still arms the kernel for Write alone although
      the stored set contains Delete. */
  method ReAddContainedAfterReArm() returns (q: SKQueue?, stored: SKQueueNotification)
    ensures q != null && q.Valid() && |q.registrations| == 2
    ensures "/watched" in q.watchedPaths && q.watchedPaths["/watched"].notification == stored
    ensures stored.Contains(SKQueueNotification.Delete)
    ensures q.registrations[|q.registrations| - 1].fflags == SKQueueNotification.Write.rawValue
  {
    q := SKQueue.Create(3);
    var first := q.AddPathToQueue("/watched", SKQueueNotification.Delete, 4);
    var second := q.AddPathToQueue("/watched", SKQueueNotification.Write, 5);
    var third := q.AddPathToQueue("/watched", SKQueueNotification.Delete, 6);
    stored := third.notification;
  }

  // ---------------------------------------------------------------------------
  // Facts about the registration log

  /** A registration for another entry leaves an entry's requested union alone. */
  lemma RequestedUnchangedForOthers(log: seq<KEvent>, ev: KEvent)
    ensures forall e :: e != ev.udata ==> Requested(log + [ev], e) == Requested(log, e)
  {
    forall e | e != ev.udata ensures Requested(log + [ev], e) == Requested(log, e) {
      assert (log + [ev])[..|log|] == log;
      UnionNoneIsIdentity(Requested(log, e));
    }
  }

  /** A registration for `entry` adds the requested set to its union. */
  lemma RequestedAppendOwn(log: seq<KEvent>, entry: SKQueuePath, notification: SKQueueNotification)
    ensures Requested(log + [Registration(entry, notification)], entry)
         == Requested(log, entry).Union(notification)
  {
    assert (log + [Registration(entry, notification)])[..|log|] == log;
  }

  /** An entry never registered has an empty requested union. */
  lemma {:induction false} RequestedOfFresh(log: seq<KEvent>, entry: SKQueuePath)
    requires forall i :: 0 <= i < |log| ==> log[i].udata != entry
    ensures Requested(log, entry) == SKQueueNotification.None
  {
    if log != [] {
      RequestedOfFresh(log[..|log| - 1], entry);
      UnionNoneIsIdentity(SKQueueNotification.None);
    }
  }

  lemma UnionNoneIsIdentity(a: SKQueueNotification)
    ensures a.Union(SKQueueNotification.None) == a
  {
  }

  lemma NoneUnionIsIdentity(a: SKQueueNotification)
    ensures SKQueueNotification.None.Union(a) == a
  {
  }
}
