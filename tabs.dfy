/**
 * The login/register tab switcher.  The page has a row of `.tab` elements, each
 * naming its form in a `data-tab` attribute; one tab and one form carry the
 * `active` class, and the choice is kept in local storage under `activeTab`.
 */
module Tabs {
  import opened Wrappers

  /** `localStorage.getItem('activeTab')` followed by the look-up of a tab with
      that `data-tab`: the index of the tab to activate on load.  A missing or
      empty (falsy) stored value, or one no tab carries, selects the first
      login tab. */
  function RestoreTarget(tabs: seq<string>, stored: Option<string>): (i: nat)
    requires "login" in tabs
    ensures i < |tabs|
    ensures tabs[i] ==
      if stored.Some? && stored.value != "" && stored.value in tabs then stored.value else "login"
    ensures forall k :: 0 <= k < i ==> tabs[k] != tabs[i]
  {
    if stored.Some? && stored.value != "" && stored.value in tabs then FirstTab(tabs, stored.value)
    else FirstTab(tabs, "login")
  }

  /** `document.querySelector('.tab[data-tab="t"]')`: the first tab named `t`. */
  function FirstTab(tabs: seq<string>, t: string): (i: nat)
    requires t in tabs
    ensures i < |tabs| && tabs[i] == t
    ensures forall k :: 0 <= k < i ==> tabs[k] != t
  {
    if tabs[0] == t then 0 else 1 + FirstTab(tabs[1..], t)
  }

  /** Whether a tab of kind `t` shows the register form: only "register" does;
      every other kind shows the login form. */
  predicate ShowsRegister(t: string) {
    t == "register"
  }

  class TabSwitcher {
    /** The `data-tab` value of each `.tab` element, in document order. */
    const tabs: seq<string>
    /** Which tabs carry the `active` class. */
    var tabActive: seq<bool>
    /** The indicator's `move-right` class. */
    var indicatorRight: bool
    var loginFormActive: bool
    var registerFormActive: bool
    /** The `activeTab` entry of local storage. */
    var stored: Option<string>

    /** One `active` flag per tab. */
    ghost predicate Valid()
      reads this
    {
      |tabActive| == |tabs|
    }

    /** The state right after tab `i` was activated. */
    ghost predicate Shows(i: nat)
      reads this
    {
      i < |tabs| && |tabActive| == |tabs| &&
      (forall k :: 0 <= k < |tabs| ==> tabActive[k] == (k == i)) &&
      registerFormActive == ShowsRegister(tabs[i]) &&
      loginFormActive == !ShowsRegister(tabs[i]) &&
      indicatorRight == ShowsRegister(tabs[i]) &&
      stored == Some(tabs[i])
    }

    /** Page load: wires the click handlers (not modelled) and restores the
        tab saved by an earlier visit, given as `persisted`. */
    constructor (tabs: seq<string>, persisted: Option<string>)
      requires "login" in tabs
      ensures this.tabs == tabs
      ensures Valid() && Shows(RestoreTarget(tabs, persisted))
    {
      this.tabs := tabs;
      tabActive := seq(|tabs|, _ => false);
      indicatorRight := false;
      loginFormActive := true;
      registerFormActive := false;
      stored := persisted;
      new;
      RestoreTabState();
    }

    /** `switchTab`: activates tab `i` alone, shows the register form iff the
        tab is "register" and the login form otherwise, and saves the tab's
        name. */
    method SwitchTab(i: nat)
      requires Valid() && i < |tabs|
      modifies this
      ensures Valid() && Shows(i)
    {
      tabActive := seq(|tabs|, k => false);
      tabActive := tabActive[i := true];
      var tabType := tabs[i];
      if tabType == "register" {
        indicatorRight := true;
        loginFormActive := false;
        registerFormActive := true;
      } else {
        indicatorRight := false;
        registerFormActive := false;
        loginFormActive := true;
      }
      stored := Some(tabType);
    }

    /** `restoreTabState`: re-activates the saved tab, falling back to login.
        The page is assumed to have a login tab to fall back to. */
    method RestoreTabState()
      requires Valid() && "login" in tabs
      modifies this
      ensures Valid() && Shows(RestoreTarget(tabs, old(stored)))
    {
      var activeTab := stored;
      if activeTab.Some? && activeTab.value != "" {
        if activeTab.value in tabs {
          SwitchTab(FirstTab(tabs, activeTab.value));
        } else {
          SwitchTab(FirstTab(tabs, "login"));
        }
      } else {
        SwitchTab(FirstTab(tabs, "login"));
      }
    }
  }

  /** Exactly one of the two forms is shown after any switch. */
  lemma OneFormShown(t: TabSwitcher, i: nat)
    requires t.Shows(i)
    ensures t.loginFormActive != t.registerFormActive
    ensures t.registerFormActive <==> t.tabs[i] == "register"
  {
  }

  /** Saving and restoring round-trips: a later visit that reads what a switch
      to tab `i` saved shows the same form and activates a tab of the same
      name (the first one), unless the name is empty, which reads as absent. */
  lemma RestoreAfterSwitch(tabs: seq<string>, i: nat)
    requires "login" in tabs && i < |tabs|
    ensures var j := RestoreTarget(tabs, Some(tabs[i]));
      tabs[j] == (if tabs[i] == "" then "login" else tabs[i]) &&
      (tabs[i] != "" ==> j <= i)
  {
  }

  /** Two visits to the page, as a caller sees them. */
  method Sessions()
  {
    var tabs := ["login", "register"];
    var first := new TabSwitcher(tabs, None);
    assert first.loginFormActive && !first.registerFormActive;
    first.SwitchTab(1);
    assert first.registerFormActive && first.stored == Some("register");
    var second := new TabSwitcher(tabs, first.stored);
    assert second.registerFormActive && second.tabActive[1];
    var third := new TabSwitcher(tabs, Some("bogus"));
    assert third.loginFormActive && third.stored == Some("login");
  }
}
