/**
 * The client's ContentSet: the values a task had when it was loaded ("before"), the edits
 * made since ("after"), the content URI, and the change listeners with their bulk-update
 * queue.
 */
module ContentSet {
  import opened Wrappers
  import opened ContentValues

  /** A registered OnContentChangeListener, identified by a number. */
  type Listener = nat

  /** What `persist` sent to the content resolver. */
  datatype Persisted = NothingPersisted | Inserted(values: Values) | Updated(values: Values)

  class ContentSet {
    var before: Option<Values>
    var after: Option<Values>
    var uri: string
    /** The change listeners registered per key. */
    var listeners: map<string, set<Listener>>
    var bulkUpdates: int
    var pending: set<Listener>
    /** The onContentChanged rounds delivered so far, each with the listeners it reached. */
    var delivered: seq<set<Listener>>
    /** The onContentLoaded calls made by `addOnChangeListener`, in order. */
    var loadedCalls: seq<Listener>

    /** `ContentSet(Uri)` for a non-null URI. */
    constructor (u: string)
      ensures uri == u && before == None && after == None
      ensures listeners == map[] && bulkUpdates == 0 && pending == {} && delivered == [] && loadedCalls == []
    {
      uri := u;
      before := None;
      after := None;
      listeners := map[];
      bulkUpdates := 0;
      pending := {};
      delivered := [];
      loadedCalls := [];
    }

    /** The constructor's null check: a null URI is an IllegalArgumentException. */
    static method Create(u: Option<string>) returns (r: Result<ContentSet>)
      ensures r.Failure? <==> u.None?
      ensures r.Success? ==> fresh(r.value) && r.value.uri == u.value && r.value.before == None && r.value.after == None
    {
      if u.None? {
        return Failure("uri must not be null");
      }
      var cs := new ContentSet(u.value);
      r := Success(cs);
    }

    /** The clone constructor: copies of both value sets and the URI, no listeners. */
    static method Clone(other: ContentSet?) returns (r: Result<ContentSet>)
      ensures r.Failure? <==> other == null
      ensures r.Success? ==> fresh(r.value) && r.value.before == other.before && r.value.after == other.after
      ensures r.Success? ==> r.value.uri == other.uri && r.value.listeners == map[] && r.value.bulkUpdates == 0
    {
      if other == null {
        return Failure("other must not be null");
      }
      var cs := new ContentSet("");
      cs.before := other.before;
      cs.after := other.after;
      cs.uri := other.uri;
      r := Success(cs);
    }

    /** `getAs*`: the edited value if the key was edited, otherwise the loaded value, otherwise null. */
    function Get(key: string): Option<Value>
      reads this
    {
      if after.Some? && key in after.value then after.value[key]
      else if before.Some? then ContentValues.Get(before.value, key)
      else None
    }

    predicate IsInsert()
      reads this
    {
      before.None? && after.Some? && |after.value| > 0
    }

    predicate IsUpdate()
      reads this
    {
      before.Some? && after.Some? && |after.value| > 0
    }

    predicate ContainsKey(key: string)
      reads this
    {
      (after.Some? && key in after.value) || (before.Some? && key in before.value)
    }

    function ListenersOf(key: string): set<Listener>
      reads this
    {
      if key in listeners then listeners[key] else {}
    }

    /** Notifying the listeners of `key`: queued during a bulk update, delivered otherwise. */
    method NotifyUpdateListeners(key: string)
      modifies this
      ensures before == old(before) && after == old(after) && uri == old(uri) && listeners == old(listeners)
      ensures bulkUpdates == old(bulkUpdates) && loadedCalls == old(loadedCalls)
      ensures old(|ListenersOf(key)|) == 0 ==> pending == old(pending) && delivered == old(delivered)
      ensures old(|ListenersOf(key)|) > 0 && bulkUpdates > 0 ==> pending == old(pending) + old(ListenersOf(key)) && delivered == old(delivered)
      ensures old(|ListenersOf(key)|) > 0 && bulkUpdates <= 0 ==> pending == old(pending) && delivered == old(delivered) + [old(ListenersOf(key))]
    {
      var ls := ListenersOf(key);
      if |ls| > 0 {
        if bulkUpdates > 0 {
          pending := pending + ls;
        } else {
          delivered := delivered + [ls];
        }
      }
    }

    /**
     * `put` for a value of Java type `kind` (the Integer, Long and String overloads): nothing
     * happens when the value equals the current one read as that type; a value equal to the
     * loaded one read as that type drops the edit; any other value becomes an edit. Listeners
     * of the key are notified whenever something changed.
     */
    method Put(kind: Kind, key: string, value: Option<Value>)
      requires Read(kind, value) == value
      modifies this
      ensures Read(kind, Get(key)) == value
      ensures forall k :: k != key ==> Get(k) == old(Get(k))
      ensures before == old(before) && uri == old(uri) && listeners == old(listeners) && bulkUpdates == old(bulkUpdates)
      ensures loadedCalls == old(loadedCalls)
      ensures Read(kind, old(Get(key))) == value ==> after == old(after) && pending == old(pending) && delivered == old(delivered)
      ensures Read(kind, old(Get(key))) != value && |ListenersOf(key)| == 0 ==> pending == old(pending) && delivered == old(delivered)
      ensures Read(kind, old(Get(key))) != value && |ListenersOf(key)| > 0 && bulkUpdates > 0 ==>
        pending == old(pending) + ListenersOf(key) && delivered == old(delivered)
      ensures Read(kind, old(Get(key))) != value && |ListenersOf(key)| > 0 && bulkUpdates <= 0 ==>
        pending == old(pending) && delivered == old(delivered) + [ListenersOf(key)]
      ensures Read(kind, old(Get(key))) != value && before.Some? && key in before.value && Read(kind, before.value[key]) == value ==>
        old(after).Some? && after == Some(old(after).value - {key})
      ensures Read(kind, old(Get(key))) != value && !(before.Some? && key in before.value && Read(kind, before.value[key]) == value) ==>
        after == Some((if old(after).Some? then old(after).value else map[])[key := value])
    {
      var oldValue := Read(kind, Get(key));
      if value != oldValue {
        if before.Some? && key in before.value {
          var beforeValue := Read(kind, before.value[key]);
          if beforeValue == value {
            after := Some(after.value - {key});
            NotifyUpdateListeners(key);
            return;
          }
        }
        var values := if after.Some? then after.value else map[];
        after := Some(values[key := value]);
        NotifyUpdateListeners(key);
      }
    }

    /** `remove`: replaces the value by null; with nothing edited yet only a non-null loaded value needs it. */
    method Remove(key: string)
      modifies this
      ensures old(after).Some? ==> after == Some(old(after).value[key := None])
      ensures old(after).None? && old(before).Some? && ContentValues.Get(old(before).value, key) != None ==>
        after == Some(map[key := None])
      ensures old(after).None? && !(old(before).Some? && ContentValues.Get(old(before).value, key) != None) ==> after == None
      ensures Get(key) == None && forall k :: k != key ==> Get(k) == old(Get(k))
      ensures before == old(before) && uri == old(uri) && listeners == old(listeners)
      ensures bulkUpdates == old(bulkUpdates) && pending == old(pending) && delivered == old(delivered)
    {
      if after.Some? {
        after := Some(after.value[key := None]);
      } else if before.Some? && ContentValues.Get(before.value, key) != None {
        after := Some(map[key := None]);
      }
    }

    /**
     * `persist`: with no edits the URI is returned and nothing happens; otherwise the edits
     * are inserted (the URI becomes the one the resolver returned) or sent as an update, and
     * then discarded.
     */
    method Persist(insertedUri: string) returns (r: string, op: Persisted)
      modifies this
      ensures old(after).None? || |old(after).value| == 0 ==>
        op == NothingPersisted && r == old(uri) && uri == old(uri) && after == old(after)
      ensures old(IsInsert()) ==> op == Inserted(old(after).value) && uri == insertedUri && after == None
      ensures old(IsUpdate()) ==> op == Updated(old(after).value) && uri == old(uri) && after == None
      ensures r == uri && before == old(before) && listeners == old(listeners)
      ensures bulkUpdates == old(bulkUpdates) && pending == old(pending) && delivered == old(delivered)
    {
      if after.None? || |after.value| == 0 {
        return uri, NothingPersisted;
      }
      op := NothingPersisted;
      if IsInsert() {
        op := Inserted(after.value);
        uri := insertedUri;
      } else if IsUpdate() {
        op := Updated(after.value);
      }
      after := None;
      r := uri;
    }

    method StartBulkUpdate()
      modifies this
      ensures bulkUpdates == old(bulkUpdates) + 1
      ensures before == old(before) && after == old(after) && pending == old(pending) && delivered == old(delivered)
    {
      bulkUpdates := bulkUpdates + 1;
    }

    /** `finishBulkUpdate`: only the outermost one (counter 1) delivers and clears the queued listeners. */
    method FinishBulkUpdate()
      modifies this
      ensures bulkUpdates == old(bulkUpdates) - 1
      ensures old(bulkUpdates) == 1 ==> pending == {}
      ensures old(bulkUpdates) == 1 ==> delivered == old(delivered) + (if old(pending) == {} then [] else [old(pending)])
      ensures old(bulkUpdates) != 1 ==> pending == old(pending) && delivered == old(delivered)
      ensures before == old(before) && after == old(after) && listeners == old(listeners)
    {
      if bulkUpdates == 1 {
        var queued := pending;
        pending := {};
        if queued != {} {
          delivered := delivered + [queued];
        }
      }
      bulkUpdates := bulkUpdates - 1;
    }

    /** `addOnChangeListener`: registers for the key and, if asked and values exist, reports them loaded. */
    method AddOnChangeListener(listener: Listener, key: string, notify: bool)
      modifies this
      ensures listeners == old(listeners)[key := old(ListenersOf(key)) + {listener}]
      ensures loadedCalls == old(loadedCalls) + (if notify && (before.Some? || after.Some?) then [listener] else [])
      ensures before == old(before) && after == old(after) && bulkUpdates == old(bulkUpdates)
      ensures pending == old(pending) && delivered == old(delivered)
    {
      listeners := listeners[key := ListenersOf(key) + {listener}];
      if notify && (before.Some? || after.Some?) {
        loadedCalls := loadedCalls + [listener];
      }
    }

    method RemoveOnChangeListener(listener: Listener, key: string)
      modifies this
      ensures key in old(listeners) ==> listeners == old(listeners)[key := old(listeners)[key] - {listener}]
      ensures key !in old(listeners) ==> listeners == old(listeners)
      ensures before == old(before) && after == old(after) && bulkUpdates == old(bulkUpdates)
      ensures pending == old(pending) && delivered == old(delivered) && loadedCalls == old(loadedCalls)
    {
      if key in listeners {
        listeners := listeners[key := listeners[key] - {listener}];
      }
    }
  }

  /** A set of pending edits is an insert or an update, never both. */
  lemma InsertXorUpdate(cs: ContentSet)
    ensures !(cs.IsInsert() && cs.IsUpdate())
    ensures cs.after.Some? && |cs.after.value| > 0 ==> cs.IsInsert() || cs.IsUpdate()
  {
  }
}
