/**
 * The configuration of the main screen's tabs: all configured tabs in their XML order and the
 * list of the visible ones.
 */
module TabConfig {
  import opened Wrappers

  /** A tab: string resource of its title, drawable resource of its icon, its id and its visibility. */
  datatype Tab = Tab(title: int, icon: int, id: int, visible: bool)

  /** A `tab` element as parsed: the `visible` attribute may be missing. */
  datatype TabElement = TabElement(title: int, icon: int, id: int, visible: Option<bool>)

  /** The reflection builder's tab: a missing `visible` attribute leaves the default, true. */
  function TabOf(e: TabElement): (t: Tab)
    ensures t.title == e.title && t.icon == e.icon && t.id == e.id
    ensures t.visible <==> e.visible.None? || e.visible.value
  {
    Tab(e.title, e.icon, e.id, if e.visible.Some? then e.visible.value else true)
  }

  /** The visible tabs, in their original order. */
  function VisibleTabs(tabs: seq<Tab>): (r: seq<Tab>)
    ensures |r| <= |tabs|
  {
    if |tabs| == 0 then []
    else
      var rest := VisibleTabs(tabs[..|tabs| - 1]);
      if tabs[|tabs| - 1].visible then rest + [tabs[|tabs| - 1]] else rest
  }

  /** The visible tabs are exactly the tabs whose visibility is set. */
  lemma {:induction false} VisibleMembers(tabs: seq<Tab>)
    ensures forall t :: t in VisibleTabs(tabs) <==> t in tabs && t.visible
  {
    if |tabs| > 0 {
      var prefix := tabs[..|tabs| - 1];
      VisibleMembers(prefix);
      assert tabs == prefix + [tabs[|tabs| - 1]];
    }
  }

  /** The position among all tabs of the `i`-th visible one. */
  function NthVisibleIndex(tabs: seq<Tab>, i: nat): (j: nat)
    requires i < |VisibleTabs(tabs)|
    ensures j < |tabs| && tabs[j].visible && VisibleTabs(tabs)[i] == tabs[j]
    ensures |VisibleTabs(tabs[..j])| == i
  {
    var last := |tabs| - 1;
    var prefix := tabs[..last];
    if i < |VisibleTabs(prefix)| then
      var j := NthVisibleIndex(prefix, i);
      assert tabs[..j] == prefix[..j];
      j
    else
      assert tabs[..last] == prefix;
      last
  }

  /** Visible tabs come in the order of all tabs: a later visible tab sits at a later position. */
  lemma VisibleOrder(tabs: seq<Tab>, i: nat, k: nat)
    requires i < k < |VisibleTabs(tabs)|
    ensures NthVisibleIndex(tabs, i) < NthVisibleIndex(tabs, k)
  {
    var a := NthVisibleIndex(tabs, i);
    var b := NthVisibleIndex(tabs, k);
    if b <= a {
      VisibleMonotone(tabs[..a + 1], b);
      assert tabs[..a + 1][..b] == tabs[..b];
      assert tabs[..a + 1][..a] == tabs[..a];
      VisiblePrefix(tabs[..a + 1], b, a);
    }
  }

  lemma {:induction false} VisibleMonotone(tabs: seq<Tab>, n: nat)
    requires n <= |tabs|
    ensures |VisibleTabs(tabs[..n])| <= |VisibleTabs(tabs)|
    decreases |tabs|
  {
    if n < |tabs| {
      VisibleMonotone(tabs[..|tabs| - 1], n);
      assert tabs[..|tabs| - 1][..n] == tabs[..n];
    } else {
      assert tabs[..n] == tabs;
    }
  }

  lemma VisiblePrefix(tabs: seq<Tab>, b: nat, a: nat)
    requires b <= a < |tabs|
    ensures |VisibleTabs(tabs[..b])| <= |VisibleTabs(tabs[..a])|
  {
    VisibleMonotone(tabs[..a], b);
    assert tabs[..a][..b] == tabs[..b];
  }

  /** Filtering twice changes nothing. */
  lemma {:induction false} VisibleIdempotent(tabs: seq<Tab>)
    ensures VisibleTabs(VisibleTabs(tabs)) == VisibleTabs(tabs)
  {
    if |tabs| > 0 {
      var prefix := tabs[..|tabs| - 1];
      VisibleIdempotent(prefix);
      var r := VisibleTabs(tabs);
      if tabs[|tabs| - 1].visible {
        assert r[..|r| - 1] == VisibleTabs(prefix);
      }
    }
  }

  /** Without any visibility attribute, every tab is visible. */
  lemma {:induction false} DefaultsVisible(elements: seq<TabElement>)
    requires forall k :: 0 <= k < |elements| ==> elements[k].visible.None?
    ensures VisibleTabs(TabsOf(elements)) == TabsOf(elements)
  {
    if |elements| > 0 {
      DefaultsVisible(elements[..|elements| - 1]);
      assert TabsOf(elements)[..|elements| - 1] == TabsOf(elements[..|elements| - 1]);
    }
  }

  /** The tabs the XML builder makes from the parsed elements. */
  function TabsOf(elements: seq<TabElement>): (r: seq<Tab>)
    ensures |r| == |elements| && forall k :: 0 <= k < |r| ==> r[k] == TabOf(elements[k])
  {
    seq(|elements|, k requires 0 <= k < |elements| => TabOf(elements[k]))
  }

  class TabConfig {
    /** `mTabs`. */
    var tabs: seq<Tab>
    /** `mVisible`. */
    var visible: seq<Tab>

    /** `load` without the XML parsing: the parsed tabs, then `updateVisible`. */
    constructor Load(elements: seq<TabElement>)
      ensures tabs == TabsOf(elements)
      ensures visible == VisibleTabs(tabs)
    {
      tabs := TabsOf(elements);
      visible := [];
      new;
      UpdateVisible();
    }

    /** `updateVisible`: the visible list cleared and refilled with the visible tabs in order. */
    method UpdateVisible()
      modifies this
      ensures tabs == old(tabs)
      ensures visible == VisibleTabs(tabs)
    {
      var list: seq<Tab> := [];
      for i := 0 to |tabs|
        invariant list == VisibleTabs(tabs[..i])
      {
        assert tabs[..i + 1][..i] == tabs[..i];
        if tabs[i].visible {
          list := list + [tabs[i]];
        }
      }
      assert tabs[..|tabs|] == tabs;
      visible := list;
    }

    /** `getItem`: the tab at a position among all tabs; out of range is an error. */
    function GetItem(position: int): (r: Result<Tab>)
      reads this
      ensures r.Success? <==> 0 <= position < |tabs|
      ensures r.Success? ==> r.value == tabs[position]
    {
      if 0 <= position < |tabs| then Success(tabs[position]) else Failure("IndexOutOfBoundsException")
    }

    /** `getVisibleItem`: the tab at a position among the visible tabs; out of range is an error. */
    function GetVisibleItem(position: int): (r: Result<Tab>)
      reads this
      ensures r.Success? <==> 0 <= position < |visible|
      ensures r.Success? ==> r.value == visible[position]
    {
      if 0 <= position < |visible| then Success(visible[position]) else Failure("IndexOutOfBoundsException")
    }

    function Size(): (n: nat)
      reads this
      ensures n == |tabs|
    {
      |tabs|
    }

    function VisibleSize(): (n: nat)
      reads this
      ensures n == |visible|
    {
      |visible|
    }
  }

  /** Once the visible list is up to date, there are no more visible tabs than tabs, and the i-th visible one is a visible tab. */
  lemma VisibleItems(c: TabConfig, i: int)
    requires c.visible == VisibleTabs(c.tabs)
    ensures c.VisibleSize() <= c.Size()
    ensures 0 <= i < c.VisibleSize() ==>
      c.GetVisibleItem(i).Success? && c.GetVisibleItem(i).value == c.tabs[NthVisibleIndex(c.tabs, i)] &&
      c.GetVisibleItem(i).value.visible
  {
  }
}
