/**
 * The pinned-task bookkeeping of TaskNotificationHandler: the URIs of pinned tasks are kept
 * in one shared-preference string, joined with ",,", and the task's PINNED flag is set
 * through its ContentSet.
 */
module TaskNotificationHandler {
  import opened Wrappers
  import opened ContentValues
  import Text
  import ContentSet

  const SEPARATOR: string := ",,"
  const PINNED: string := "pinned"

  /** The pinned URIs a stored preference value stands for: none when unset, else the split. */
  function PinnedUris(stored: Option<string>): seq<string>
  {
    if stored.None? then [] else Text.JavaSplit(stored.value, SEPARATOR)
  }

  /** Java's `s + ...` on a possibly null String: null is rendered as "null". */
  function JavaString(s: Option<string>): string
  {
    if s.None? then "null" else s.value
  }

  /** The stored string after `savePinnedTask` as written. */
  function AppendAsWritten(stored: Option<string>, uri: string): Option<string>
  {
    Some(JavaString(stored) + SEPARATOR + uri)
  }

  /** The stored string after appending one URI, with nothing stored yet handled as an empty list. */
  function AppendPinned(stored: Option<string>, uri: string): Option<string>
  {
    if stored.None? || stored == Some("") then Some(uri) else Some(stored.value + SEPARATOR + uri)
  }

  /** A URI that the ",," encoding carries unchanged: non-empty and free of commas. */
  predicate Storable(uri: string)
  {
    uri != "" && Text.Avoids(uri, SEPARATOR)
  }

  /** The stored string encodes exactly `uris`. */
  predicate Encodes(stored: Option<string>, uris: seq<string>)
  {
    if |uris| == 0 then stored == None || stored == Some("")
    else stored == Some(Text.Join(uris, SEPARATOR))
  }

  /** The preference that holds the pinned-task list. */
  class PinnedTaskStore {
    var stored: Option<string>

    constructor (initial: Option<string>)
      ensures stored == initial
    {
      stored := initial;
    }

    /** `savePinnedTasks`: overwrites the preference with the URIs joined by ",,". */
    method SavePinnedTasks(uris: seq<string>)
      modifies this
      ensures stored == Some(Text.Join(uris, SEPARATOR))
    {
      var sb := "";
      var i := 0;
      while i < |uris|
        invariant 0 <= i <= |uris|
        invariant i == 0 ==> sb == ""
        invariant 0 < i < |uris| ==> sb == Text.Join(uris[..i], SEPARATOR) + SEPARATOR
        invariant 0 < i == |uris| ==> sb == Text.Join(uris[..i], SEPARATOR)
      {
        ghost var prefix := sb;
        sb := sb + uris[i];
        if i > 0 {
          Text.JoinSnoc(uris[..i], uris[i], SEPARATOR);
          assert uris[..i + 1] == uris[..i] + [uris[i]];
        } else {
          assert uris[..1] == [uris[0]];
        }
        if i < |uris| - 1 {
          sb := sb + SEPARATOR;
        }
        i := i + 1;
      }
      assert uris[..|uris|] == uris;
      stored := Some(sb);
    }

    /** `savePinnedTask` as written: appends ",," and the URI even when nothing is stored. */
    method SavePinnedTaskAsWritten(uri: string)
      modifies this
      ensures stored == AppendAsWritten(old(stored), uri)
    {
      stored := Some(JavaString(stored) + SEPARATOR + uri);
    }

    /** `savePinnedTask` with an unset or empty preference treated as the empty list. */
    method SavePinnedTask(uri: string)
      modifies this
      ensures stored == AppendPinned(old(stored), uri)
    {
      if stored.None? || stored == Some("") {
        stored := Some(uri);
      } else {
        stored := Some(stored.value + SEPARATOR + uri);
      }
    }

    /** `getPinnedTaskUris`: nothing for an unset preference, else every piece of the split. */
    method GetPinnedTaskUris() returns (uris: seq<string>)
      ensures uris == PinnedUris(stored)
    {
      uris := [];
      if stored.None? {
        return;
      }
      var pieces := Text.JavaSplit(stored.value, SEPARATOR);
      var i := 0;
      while i < |pieces|
        invariant 0 <= i <= |pieces|
        invariant uris == pieces[..i]
      {
        uris := uris + [pieces[i]];
        assert pieces[..i + 1] == pieces[..i] + [pieces[i]];
        i := i + 1;
      }
      assert pieces[..|pieces|] == pieces;
    }

    /** `isTaskPinned`: a linear search of the stored URIs. */
    method IsTaskPinned(taskUri: string) returns (r: bool)
      ensures r <==> taskUri in PinnedUris(stored)
    {
      var uris := GetPinnedTaskUris();
      var i := 0;
      while i < |uris|
        invariant 0 <= i <= |uris|
        invariant taskUri !in uris[..i]
      {
        if uris[i] == taskUri {
          return true;
        }
        assert uris[..i + 1] == uris[..i] + [uris[i]];
        i := i + 1;
      }
      assert uris[..|uris|] == uris;
      return false;
    }

    /** `pinTask`: records the URI as written and sets the task's PINNED flag to 1 (starting the service is left out). */
    method PinTask(task: ContentSet.ContentSet)
      modifies this, task
      ensures stored == AppendAsWritten(old(stored), old(task.uri))
      ensures AsInteger(task.Get(PINNED)) == Some(1)
      ensures forall k :: k != PINNED ==> task.Get(k) == old(task.Get(k))
      ensures task.uri == old(task.uri) && task.before == old(task.before)
    {
      SavePinnedTaskAsWritten(task.uri);
      task.Put(IntegerKind, PINNED, Some(IntV(1)));
    }

    /** `pinTask` over the corrected append, so the stored list reads back as the old one plus the task. */
    method PinTaskIntended(task: ContentSet.ContentSet)
      modifies this, task
      ensures stored == AppendPinned(old(stored), old(task.uri))
      ensures AsInteger(task.Get(PINNED)) == Some(1)
      ensures forall k :: k != PINNED ==> task.Get(k) == old(task.Get(k))
      ensures task.uri == old(task.uri) && task.before == old(task.before)
    {
      SavePinnedTask(task.uri);
      task.Put(IntegerKind, PINNED, Some(IntV(1)));
    }

    /** `unpinTask`: only clears the PINNED flag; the stored list is left as it is. */
    method UnpinTask(task: ContentSet.ContentSet)
      modifies task
      ensures stored == old(stored)
      ensures AsInteger(task.Get(PINNED)) == Some(0)
      ensures forall k :: k != PINNED ==> task.Get(k) == old(task.Get(k))
      ensures task.uri == old(task.uri) && task.before == old(task.before)
    {
      task.Put(IntegerKind, PINNED, Some(IntV(0)));
    }
  }

  /** Reading back what `savePinnedTasks` stored gives the same list. */
  lemma SaveThenRead(uris: seq<string>)
    requires |uris| > 0
    requires forall i :: 0 <= i < |uris| ==> Storable(uris[i])
    ensures PinnedUris(Some(Text.Join(uris, SEPARATOR))) == uris
  {
    Text.JavaSplitJoin(uris, SEPARATOR);
  }

  /** An empty list is stored as "", which reads back as one empty URI rather than none. */
  lemma EmptyListReadsBackOneEmptyUri()
    ensures PinnedUris(Some(Text.Join([], SEPARATOR))) == [""]
  {
  }

  /** Appending to a store that encodes `uris` yields one that encodes `uris + [uri]`. */
  lemma AppendPinnedExtends(stored: Option<string>, uris: seq<string>, uri: string)
    requires Encodes(stored, uris)
    requires forall i :: 0 <= i < |uris| ==> Storable(uris[i])
    ensures Encodes(AppendPinned(stored, uri), uris + [uri])
  {
    if |uris| == 0 {
      assert uris + [uri] == [uri];
    } else {
      assert |Text.Join(uris, SEPARATOR)| >= |uris[0]| > 0;
      Text.JoinSnoc(uris, uri, SEPARATOR);
    }
  }

  /** So the pinned URIs read after appending are the old ones followed by the new one. */
  lemma AppendPinnedReadsBack(stored: Option<string>, uris: seq<string>, uri: string)
    requires Encodes(stored, uris)
    requires forall i :: 0 <= i < |uris| ==> Storable(uris[i])
    requires Storable(uri)
    ensures PinnedUris(AppendPinned(stored, uri)) == uris + [uri]
  {
    AppendPinnedExtends(stored, uris, uri);
    var all := uris + [uri];
    assert forall i :: 0 <= i < |all| ==> Storable(all[i]);
    SaveThenRead(all);
  }

  /** As written, appending to an unset preference reads back with a bogus "null" URI first. */
  lemma AppendAsWrittenOnUnsetStore(uri: string)
    requires Storable(uri)
    ensures PinnedUris(AppendAsWritten(None, uri)) == ["null", uri]
    ensures PinnedUris(AppendAsWritten(None, uri)) != PinnedUris(None) + [uri]
  {
    assert Text.Join(["null", uri], SEPARATOR) == "null" + SEPARATOR + uri;
    assert Storable("null");
    SaveThenRead(["null", uri]);
  }

  /** As written, appending to an emptied list ("") reads back with an empty URI first. */
  lemma AppendAsWrittenOnEmptyStore(uri: string)
    requires Storable(uri)
    ensures PinnedUris(AppendAsWritten(Some(""), uri)) == ["", uri]
  {
    Text.SplitRawAfter("", SEPARATOR + uri, SEPARATOR);
    assert "" + SEPARATOR + uri == SEPARATOR + uri;
    assert (SEPARATOR + uri)[|SEPARATOR|..] == uri;
    Text.SplitRawAfter(uri, "", SEPARATOR);
    assert uri + "" == uri;
  }
}
