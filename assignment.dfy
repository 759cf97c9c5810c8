/**
 * What `assignContext` does to the desktop table: the pane tab it acts
 * on, the context it reads from that pane's path, and how the dialog
 * answer on a conflict decides between binding, reassigning, removing
 * and leaving the table alone.
 */
module Assignment {
  import opened Opt
  import opened Paths
  import opened DeskMap
  import opened Ui

  /** The tab `assignContext` acts on: current, a network editor, under the cursor. */
  predicate Eligible(tab: PaneTab)
  {
    tab.isCurrentTab && tab.isNetworkEditor && tab.isUnderCursor
  }

  /** The first eligible tab; the `break` means no later tab is looked at. */
  function FirstEligible(tabs: seq<PaneTab>): (r: Option<nat>)
    ensures r.Some? ==> r.value < |tabs| && Eligible(tabs[r.value])
    ensures r.Some? ==> forall j | 0 <= j < r.value :: !Eligible(tabs[j])
    ensures r.None? <==> forall j | 0 <= j < |tabs| :: !Eligible(tabs[j])
    decreases |tabs|
  {
    if tabs == [] then None
    else if Eligible(tabs[0]) then Some(0)
    else match FirstEligible(tabs[1..])
      case None => None
      case Some(k) => Some(k + 1)
  }

  /** The dialog buttons, by the index `hou.ui.displayMessage` returns. */
  const Reassign: int := 0
  const Remove: int := 1

  /** How one call to `assignContext` ended. */
  datatype AssignOutcome =
    | NoEligiblePane
      /** `split('/')[1]` raised IndexError: the path has no '/'. */
    | ContextIndexError
      /** No conflict: `current_desktop ↦ binding`. */
    | Bound(desktop: string, binding: Binding)
      /** Conflict with `conflict`, answered Reassign. */
    | Reassigned(conflict: string, desktop: string, binding: Binding)
      /** Conflict with `conflict`, answered Remove. */
    | Removed(conflict: string)
      /** Conflict with `conflict`, dialog closed any other way. */
    | Canceled(conflict: string)
  {
    /** Whether the call wrote the configuration (one `setConfig`). */
    predicate Saves()
    {
      Bound? || Reassigned? || Removed?
    }
  }

  datatype AssignResult = AssignResult(table: Table, outcome: AssignOutcome)

  /**
   * The table after `assignContext` and how it ended, given the pane
   * tabs, the current desktop's name and the dialog's answer (read only
   * when there is a conflict).
   */
  function AssignSpec(t: Table, tabs: seq<PaneTab>, current: string, choice: int): (r: AssignResult)
    ensures r.outcome.NoEligiblePane? <==> FirstEligible(tabs).None?
    ensures !r.outcome.Saves() ==> r.table == t
    ensures r.outcome.Bound? ==> r.outcome.desktop == current && Lookup(r.table, current) == Some(r.outcome.binding)
    ensures r.outcome.Reassigned? ==> r.outcome.desktop == current && Lookup(r.table, current) == Some(r.outcome.binding)
  {
    match FirstEligible(tabs)
    case None => AssignResult(t, NoEligiblePane)
    case Some(i) =>
      match NetworkContext(tabs[i].pwd)
      case None => AssignResult(t, ContextIndexError)
      case Some(ctx) =>
        var b := Binding(tabs[i].name, ctx);
        var conflict := IsVailedContext(t, ctx);
        if conflict == "" then AssignResult(Put(t, current, b), Bound(current, b))
        else if choice == Reassign then AssignResult(Put(Pop(t, conflict), current, b), Reassigned(conflict, current, b))
        else if choice == Remove then AssignResult(Pop(t, conflict), Removed(conflict))
        else AssignResult(t, Canceled(conflict))
  }

  /**
   * No desktop has the context: the current desktop is bound to the pane
   * and its context, overwriting what it had, every other desktop keeps
   * its binding, and the configuration is saved.
   */
  lemma AssignWithoutConflict(t: Table, tabs: seq<PaneTab>, current: string, choice: int)
    requires UniqueKeys(t)
    requires FirstEligible(tabs).Some?
    requires NetworkContext(tabs[FirstEligible(tabs).value].pwd).Some?
    requires forall j | 0 <= j < |t| ::
      t[j].binding.context != NetworkContext(tabs[FirstEligible(tabs).value].pwd).value
    ensures var tab := tabs[FirstEligible(tabs).value];
      var b := Binding(tab.name, NetworkContext(tab.pwd).value);
      var r := AssignSpec(t, tabs, current, choice);
      && r.outcome == Bound(current, b)
      && r.outcome.Saves()
      && UniqueKeys(r.table)
      && Lookup(r.table, current) == Some(b)
      && forall k | k != current :: Lookup(r.table, k) == Lookup(t, k)
  {
    var tab := tabs[FirstEligible(tabs).value];
    var b := Binding(tab.name, NetworkContext(tab.pwd).value);
    LookupPut(t, current, b, current);
    forall k | k != current
      ensures Lookup(AssignSpec(t, tabs, current, choice).table, k) == Lookup(t, k)
    {
      LookupPut(t, current, b, k);
    }
  }

  /**
   * The desktop at position `m` is the first one with the context and
   * the answer is Reassign: that desktop loses its binding, the current
   * desktop is bound instead, every other desktop keeps its binding, and
   * the configuration is saved.
   */
  lemma AssignReassign(t: Table, tabs: seq<PaneTab>, current: string, m: nat)
    requires UniqueKeys(t)
    requires FirstEligible(tabs).Some?
    requires NetworkContext(tabs[FirstEligible(tabs).value].pwd).Some?
    requires m < |t| && t[m].binding.context == NetworkContext(tabs[FirstEligible(tabs).value].pwd).value
    requires t[m].desktop != ""
    requires forall j | 0 <= j < m :: t[j].binding.context != t[m].binding.context
    ensures var tab := tabs[FirstEligible(tabs).value];
      var b := Binding(tab.name, t[m].binding.context);
      var r := AssignSpec(t, tabs, current, Reassign);
      && r.outcome == Reassigned(t[m].desktop, current, b)
      && r.outcome.Saves()
      && UniqueKeys(r.table)
      && Lookup(r.table, current) == Some(b)
      && (t[m].desktop != current ==> Lookup(r.table, t[m].desktop) == None)
      && forall k | k != current && k != t[m].desktop :: Lookup(r.table, k) == Lookup(t, k)
  {
    var tab := tabs[FirstEligible(tabs).value];
    var b := Binding(tab.name, t[m].binding.context);
    var d := t[m].desktop;
    IsVailedContextFirst(t, t[m].binding.context, m);
    var u := Pop(t, d);
    LookupPop(t, d, d);
    LookupPut(u, current, b, current);
    LookupPut(u, current, b, d);
    forall k | k != current && k != d
      ensures Lookup(AssignSpec(t, tabs, current, Reassign).table, k) == Lookup(t, k)
    {
      LookupPop(t, d, k);
      LookupPut(u, current, b, k);
    }
  }

  /**
   * The desktop at position `m` is the first one with the context and the
   * answer is Remove: that desktop loses its binding, nobody else's
   * binding changes (the current desktop is not added), and the
   * configuration is saved.
   */
  lemma AssignRemove(t: Table, tabs: seq<PaneTab>, current: string, m: nat)
    requires UniqueKeys(t)
    requires FirstEligible(tabs).Some?
    requires NetworkContext(tabs[FirstEligible(tabs).value].pwd).Some?
    requires m < |t| && t[m].binding.context == NetworkContext(tabs[FirstEligible(tabs).value].pwd).value
    requires t[m].desktop != ""
    requires forall j | 0 <= j < m :: t[j].binding.context != t[m].binding.context
    ensures var r := AssignSpec(t, tabs, current, Remove);
      && r.outcome == Removed(t[m].desktop)
      && r.outcome.Saves()
      && UniqueKeys(r.table)
      && Lookup(r.table, t[m].desktop) == None
      && forall k | k != t[m].desktop :: Lookup(r.table, k) == Lookup(t, k)
  {
    var d := t[m].desktop;
    IsVailedContextFirst(t, t[m].binding.context, m);
    LookupPop(t, d, d);
    forall k | k != d
      ensures Lookup(AssignSpec(t, tabs, current, Remove).table, k) == Lookup(t, k)
    {
      LookupPop(t, d, k);
    }
  }

  /**
   * The table changes and the configuration is saved exactly when an
   * eligible tab with a context exists and either nobody has that
   * context or the answer is Reassign or Remove; in every other case
   * (no eligible tab, IndexError, Cancel) the table is left alone.
   */
  lemma AssignSavesExactly(t: Table, tabs: seq<PaneTab>, current: string, choice: int)
    requires NoEmptyDesktop(t)
    ensures var r := AssignSpec(t, tabs, current, choice);
      r.outcome.Saves() <==>
        && FirstEligible(tabs).Some?
        && NetworkContext(tabs[FirstEligible(tabs).value].pwd).Some?
        && ((forall j | 0 <= j < |t| ::
               t[j].binding.context != NetworkContext(tabs[FirstEligible(tabs).value].pwd).value)
            || choice == Reassign || choice == Remove)
    ensures var r := AssignSpec(t, tabs, current, choice);
      !r.outcome.Saves() ==> r.table == t
  {
    match FirstEligible(tabs)
    case None =>
    case Some(i) =>
      match NetworkContext(tabs[i].pwd)
      case None =>
      case Some(ctx) =>
        IsVailedContextEmpty(t, ctx);
  }

  /**
   * Reassigning the current desktop's own context moves its entry to the
   * end of the table: Python's `pop` followed by re-insertion.
   */
  lemma ReassignOwnContextMovesToEnd(t: Table, tabs: seq<PaneTab>, m: nat)
    requires UniqueKeys(t)
    requires FirstEligible(tabs).Some?
    requires NetworkContext(tabs[FirstEligible(tabs).value].pwd).Some?
    requires m < |t| && t[m].binding.context == NetworkContext(tabs[FirstEligible(tabs).value].pwd).value
    requires t[m].desktop != ""
    requires forall j | 0 <= j < m :: t[j].binding.context != t[m].binding.context
    ensures AssignSpec(t, tabs, t[m].desktop, Reassign).table ==
      t[..m] + t[m + 1..] + [Entry(t[m].desktop, Binding(tabs[FirstEligible(tabs).value].name, t[m].binding.context))]
  {
    var d := t[m].desktop;
    IsVailedContextFirst(t, t[m].binding.context, m);
    assert Find(t, d) == Some(m);
    LookupPop(t, d, d);
    var u := Pop(t, d);
    assert Find(u, d).None?;
  }

  /**
   * The restrictive rule: if no context was bound to two desktops and the
   * keys were unique before `assignContext`, both still hold afterwards.
   */
  lemma AssignKeepsOneContext(t: Table, tabs: seq<PaneTab>, current: string, choice: int)
    requires UniqueKeys(t) && OneContext(t) && NoEmptyDesktop(t)
    ensures UniqueKeys(AssignSpec(t, tabs, current, choice).table)
    ensures OneContext(AssignSpec(t, tabs, current, choice).table)
  {
    match FirstEligible(tabs)
    case None =>
    case Some(i) =>
      match NetworkContext(tabs[i].pwd)
      case None =>
      case Some(ctx) =>
        var b := Binding(tabs[i].name, ctx);
        var conflict := IsVailedContext(t, ctx);
        if conflict == "" {
          IsVailedContextEmpty(t, ctx);
          PutFreshKeepsOneContext(t, current, b);
          LookupPut(t, current, b, current);
        } else {
          var m :| 0 <= m < |t| && t[m].binding.context == ctx && conflict == t[m].desktop;
          PopKeepsOneContext(t, conflict);
          PopClearsContext(t, m);
          LookupPop(t, conflict, conflict);
          var u := Pop(t, conflict);
          PutFreshKeepsOneContext(u, current, b);
          LookupPut(u, current, b, current);
        }
  }
}
