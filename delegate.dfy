/** The default set-callback of SKQueueDelegate (SKQueue.swift:45-48): a
    notification set is turned into one per-name callback for each name of
    the set, in declaration order. */
module Delegate {
  import opened Notification

  /** One call of the per-name callback. */
  datatype NameCallback = NameCallback(name: SKQueueNotificationString, path: string)

  /** The default `receivedNotification(queue, notification, forPath:)`: the
      per-name callbacks it makes, in order. The queue argument is passed
      through unchanged and is not modelled. */
  method ReceivedNotification(notification: SKQueueNotification, path: string)
    returns (calls: seq<NameCallback>)
    ensures |calls| == |Names(notification)|
    ensures forall i :: 0 <= i < |calls| ==> calls[i] == NameCallback(Names(notification)[i], path)
    ensures forall k :: NameCallback(k, path) in calls <==> notification.Contains(Flag(k))
    ensures forall i, j :: 0 <= i < j < |calls| ==> calls[i] != calls[j]
  {
    var names := notification.ToStrings();
    calls := [];
    var i := 0;
    while i < |names|
      invariant 0 <= i <= |names|
      invariant |calls| == i
      invariant forall j :: 0 <= j < i ==> calls[j] == NameCallback(names[j], path)
    {
      calls := calls + [NameCallback(names[i], path)];
      i := i + 1;
    }
    NamesOrderedAndDistinct(notification);
    forall k ensures NameCallback(k, path) in calls <==> notification.Contains(Flag(k)) {
      NamesMembership(notification, k);
      if k in names {
        var j :| 0 <= j < |names| && names[j] == k;
        assert calls[j] == NameCallback(k, path);
      }
    }
  }
}
