/**
 * NotificationActionUtils: the NotificationAction record with its Parcel encoding, and the
 * static bookkeeping of undo notifications (timestamps per notification id and the lazily
 * initialised undo timeout).
 */
module NotificationAction {
  import opened Wrappers

  const TIMEOUT_MILLIS: int := 10000
  const UNSET_TIMEOUT: int := -1

  /** An action offered on a notification; immutable once built (getters are the fields). */
  datatype NotificationAction = NotificationAction(
    actionType: Option<string>,
    taskTitle: Option<string>,
    actionTextResId: int,
    notificationId: int,
    taskUri: string,
    when: int)

  /** One value written into an android.os.Parcel. */
  datatype ParcelItem = PString(s: Option<string>) | PInt(i: int) | PLong(l: int)

  /** What `writeToParcel` writes: type, text resource, notification id, URI, when, title. */
  function Encoding(a: NotificationAction): (r: seq<ParcelItem>)
    ensures |r| == 6
  {
    [PString(a.actionType), PInt(a.actionTextResId), PInt(a.notificationId),
     PString(Some(a.taskUri)), PLong(a.when), PString(a.taskTitle)]
  }

  /**
   * What the parcel constructor reads from `items`: the same six values in the same order;
   * a null URI string is a NullPointerException in `Uri.parse`.
   */
  function Decode(items: seq<ParcelItem>): (r: Option<NotificationAction>)
    ensures r.Some? ==> |items| >= 6 && Encoding(r.value) == items[..6]
  {
    if |items| >= 6 && items[0].PString? && items[1].PInt? && items[2].PInt?
       && items[3].PString? && items[3].s.Some? && items[4].PLong? && items[5].PString?
    then Some(NotificationAction(items[0].s, items[5].s, items[1].i, items[2].i, items[3].s.value, items[4].l))
    else None
  }

  /** Reading back what was written reproduces every field, whatever follows in the parcel. */
  lemma DecodeEncoding(a: NotificationAction, rest: seq<ParcelItem>)
    ensures Decode(Encoding(a) + rest) == Some(a)
  {
    var items := Encoding(a) + rest;
    assert items[..6] == Encoding(a);
    assert items[0] == PString(a.actionType) && items[5] == PString(a.taskTitle);
    assert items[3] == PString(Some(a.taskUri));
  }

  /** A Parcel: the values written so far and the read position. */
  class Parcel {
    var data: seq<ParcelItem>
    var readPos: nat

    constructor ()
      ensures data == [] && readPos == 0
    {
      data := [];
      readPos := 0;
    }

    method Write(item: ParcelItem)
      modifies this
      ensures data == old(data) + [item] && readPos == old(readPos)
    {
      data := data + [item];
    }

    method Read() returns (r: Option<ParcelItem>)
      modifies this
      ensures old(readPos) < |data| ==> r == Some(data[old(readPos)]) && readPos == old(readPos) + 1
      ensures old(readPos) >= |data| ==> r == None && readPos == old(readPos)
      ensures data == old(data)
    {
      if readPos < |data| {
        r := Some(data[readPos]);
        readPos := readPos + 1;
      } else {
        r := None;
      }
    }
  }

  /** `writeToParcel`: appends the six values. */
  method WriteToParcel(a: NotificationAction, out: Parcel)
    modifies out
    ensures out.data == old(out.data) + Encoding(a) && out.readPos == old(out.readPos)
  {
    out.Write(PString(a.actionType));
    out.Write(PInt(a.actionTextResId));
    out.Write(PInt(a.notificationId));
    out.Write(PString(Some(a.taskUri)));
    out.Write(PLong(a.when));
    out.Write(PString(a.taskTitle));
  }

  /** The parcel constructor: reads six values; a missing or mistyped value is a failure. */
  method FromParcel(p: Parcel) returns (r: Option<NotificationAction>)
    modifies p
    ensures p.data == old(p.data)
    ensures old(p.readPos) <= |p.data| ==> r == Decode(p.data[old(p.readPos)..])
    ensures r.Some? ==> p.readPos == old(p.readPos) + 6
  {
    ghost var start := p.readPos;
    ghost var items := if start <= |p.data| then p.data[start..] else [];
    var t := p.Read();
    var res := p.Read();
    var id := p.Read();
    var uri := p.Read();
    var when := p.Read();
    var title := p.Read();
    if t.Some? && t.value.PString? && res.Some? && res.value.PInt? && id.Some? && id.value.PInt?
       && uri.Some? && uri.value.PString? && uri.value.s.Some? && when.Some? && when.value.PLong?
       && title.Some? && title.value.PString?
    {
      assert items[0] == t.value && items[1] == res.value && items[2] == id.value;
      assert items[3] == uri.value && items[4] == when.value && items[5] == title.value;
      r := Some(NotificationAction(t.value.s, title.value.s, res.value.i, id.value.i, uri.value.s.value, when.value.l));
    } else {
      r := None;
    }
  }

  /** Parcelling an action through a fresh parcel gives back an equal action. */
  method ParcelRoundTrip(a: NotificationAction) returns (copy: Option<NotificationAction>)
    ensures copy == Some(a)
  {
    var p := new Parcel();
    WriteToParcel(a, p);
    assert p.data == Encoding(a);
    copy := FromParcel(p);
    DecodeEncoding(a, []);
    assert p.data[0..] == Encoding(a) + [];
  }

  /** `sNotificationTimestamps` and `sUndoTimeoutMillis`. */
  class UndoBookkeeping {
    var timestamps: map<int, int>
    var undoTimeoutMillis: int

    constructor ()
      ensures timestamps == map[] && undoTimeoutMillis == UNSET_TIMEOUT
    {
      timestamps := map[];
      undoTimeoutMillis := UNSET_TIMEOUT;
    }

    /** `createUndoNotification` records the action's time under its notification id. */
    method CreateUndoNotification(a: NotificationAction)
      modifies this
      ensures timestamps == old(timestamps)[a.notificationId := a.when]
      ensures undoTimeoutMillis == old(undoTimeoutMillis)
    {
      timestamps := timestamps[a.notificationId := a.when];
    }

    /** `processUndoNotification` forgets the notification id's time. */
    method ProcessUndoNotification(a: NotificationAction)
      modifies this
      ensures timestamps == old(timestamps) - {a.notificationId}
      ensures undoTimeoutMillis == old(undoTimeoutMillis)
    {
      timestamps := timestamps - {a.notificationId};
    }

    /**
     * `registerUndoTimeout`: fixes the timeout at 10000 ms the first time and returns the
     * alarm's trigger time for the given elapsed real time.
     */
    method RegisterUndoTimeout(a: NotificationAction, elapsedRealtime: int) returns (triggerAt: int)
      modifies this
      ensures undoTimeoutMillis == (if old(undoTimeoutMillis) == UNSET_TIMEOUT then TIMEOUT_MILLIS else old(undoTimeoutMillis))
      ensures triggerAt == elapsedRealtime + undoTimeoutMillis
      ensures timestamps == old(timestamps)
    {
      if undoTimeoutMillis == UNSET_TIMEOUT {
        undoTimeoutMillis := TIMEOUT_MILLIS;
      }
      triggerAt := elapsedRealtime + undoTimeoutMillis;
    }
  }

  /** Processing an undo notification undoes its creation for every other notification id. */
  lemma ProcessUndoesCreate(timestamps: map<int, int>, a: NotificationAction)
    requires a.notificationId !in timestamps
    ensures timestamps[a.notificationId := a.when] - {a.notificationId} == timestamps
  {
  }
}
