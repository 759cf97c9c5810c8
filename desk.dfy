/**
 * The plugin's state and its two event handlers: the configuration held
 * in `nodegraphdesk_config.json`, `assignContext` that edits its desktop
 * table, and `nodegraphdesk` that reacts to a context change.
 */
module Desk {
  import opened Opt
  import opened Paths
  import opened DeskMap
  import opened Ui
  import opened Assignment
  import opened Resolution

  /**
   * The configuration document. The file is the single copy: every
   * handler starts from what was last written, and `saves` counts the
   * writes (`setConfig`).
   */
  class Config {
    /** `nodegraphdesk_map`. */
    var deskMap: Table
    /** `subnetwork_mapping`. */
    var subnetworkMapping: bool
    /** `subnetwork_context_map`, in its key order. */
    var subnetworkContextMap: seq<(string, string)>
    /** How many times the document has been written. */
    var saves: nat

    predicate Valid()
      reads this
    {
      UniqueKeys(deskMap)
    }

    constructor (table: Table, mapping: bool, scm: seq<(string, string)>)
      requires UniqueKeys(table)
      ensures Valid()
      ensures deskMap == table && subnetworkMapping == mapping && subnetworkContextMap == scm
      ensures saves == 0
    {
      deskMap := table;
      subnetworkMapping := mapping;
      subnetworkContextMap := scm;
      saves := 0;
    }

    /**
     * `assignContext`: acts on the first current network-editor tab under
     * the cursor; `choice` is the button the conflict dialog returns.
     */
    method AssignContext(tabs: seq<PaneTab>, currentDesktop: string, choice: int) returns (outcome: AssignOutcome)
      requires Valid()
      modifies this`deskMap, this`saves
      ensures Valid()
      ensures deskMap == AssignSpec(old(deskMap), tabs, currentDesktop, choice).table
      ensures outcome == AssignSpec(old(deskMap), tabs, currentDesktop, choice).outcome
      ensures saves == old(saves) + if outcome.Saves() then 1 else 0
      ensures OneContext(old(deskMap)) && NoEmptyDesktop(old(deskMap)) ==> OneContext(deskMap)
    {
      ghost var t := deskMap;
      outcome := NoEligiblePane;
      var i := 0;
      while i < |tabs|
        invariant 0 <= i <= |tabs|
        invariant forall j | 0 <= j < i :: !Eligible(tabs[j])
        invariant deskMap == t && saves == old(saves) && outcome == NoEligiblePane
      {
        var tab := tabs[i];
        if tab.isCurrentTab && tab.isNetworkEditor && tab.isUnderCursor {
          assert FirstEligible(tabs) == Some(i);
          var pieces := Split(tab.pwd, Slash);
          if |pieces| < 2 {
            outcome := ContextIndexError;
            break;
          }
          var b := Binding(tab.name, pieces[1]);
          var conflict := IsVailedContext(deskMap, b.context);
          if conflict != "" {
            if choice == Reassign {
              LookupPop(deskMap, conflict, conflict);
              deskMap := Pop(deskMap, conflict);
              LookupPut(deskMap, currentDesktop, b, currentDesktop);
              deskMap := Put(deskMap, currentDesktop, b);
              saves := saves + 1;
              outcome := Reassigned(conflict, currentDesktop, b);
            } else if choice == Remove {
              LookupPop(deskMap, conflict, conflict);
              deskMap := Pop(deskMap, conflict);
              saves := saves + 1;
              outcome := Removed(conflict);
            } else {
              outcome := Canceled(conflict);
              break;
            }
          } else {
            LookupPut(deskMap, currentDesktop, b, currentDesktop);
            deskMap := Put(deskMap, currentDesktop, b);
            saves := saves + 1;
            outcome := Bound(currentDesktop, b);
          }
          break;
        }
        i := i + 1;
      }
      if OneContext(t) && NoEmptyDesktop(t) {
        AssignKeepsOneContext(t, tabs, currentDesktop, choice);
      }
    }

    /**
     * The context the event's new path selects: piece 1 of the path, or
     * the loop over `subnetwork_context_map`, which rebinds `new_context`
     * to each key whose value occurs in `new_context[-1]`.
     */
    method NewContext(path: string) returns (d: Derived)
      ensures d == DeriveContext(path, subnetworkMapping, subnetworkContextMap)
    {
      var pieces := Split(path, Slash);
      if |pieces| > 2 && subnetworkMapping {
        var last := pieces[|pieces| - 1];
        var state: SubState := Pieces;
        var k := 0;
        while k < |subnetworkContextMap|
          invariant 0 <= k <= |subnetworkContextMap|
          invariant state == SubFold(subnetworkContextMap[..k], last)
          invariant !state.EmptyKeyIndexError?
        {
          assert subnetworkContextMap[..k + 1][..k] == subnetworkContextMap[..k];
          var hay := last;
          if state.Key? {
            var key := state.name;
            if key == "" {
              state := EmptyKeyIndexError;
              SubFoldRaisedStays(subnetworkContextMap, last, k + 1);
              break;
            }
            hay := [key[|key| - 1]];
          }
          if IsSubstring(subnetworkContextMap[k].1, hay) {
            state := Key(subnetworkContextMap[k].0);
          }
          k := k + 1;
        }
        if !state.EmptyKeyIndexError? {
          assert subnetworkContextMap[..k] == subnetworkContextMap;
        }
        match state {
          case Key(key) => d := Context(key);
          case Pieces => d := Unmatched;
          case EmptyKeyIndexError => d := EmptyKeyFailed;
        }
      } else if |pieces| > 1 {
        d := Context(pieces[1]);
      } else {
        d := SplitFailed;
      }
    }

    /**
     * The desktop-switch scan: every desktop bound to `c`, in table
     * order, is made current and its pane sent to `path`; a desktop the
     * host no longer has raises KeyError and ends the scan.
     */
    method SwitchDesktops(c: string, path: string, hostDesktops: set<string>) returns (o: Outcome)
      ensures Scanned(deskMap, c, path, hostDesktops, o)
    {
      var switches: seq<Switch> := [];
      var j := 0;
      while j < |deskMap|
        invariant 0 <= j <= |deskMap|
        invariant switches == Matches(deskMap[..j], c, path)
        invariant forall k | 0 <= k < j && deskMap[k].binding.context == c :: deskMap[k].desktop in hostDesktops
      {
        assert deskMap[..j + 1][..j] == deskMap[..j];
        var e := deskMap[j];
        if e.binding.context == c {
          if e.desktop !in hostDesktops {
            o := Outcome(switches, Some(KeyError(e.desktop)));
            return;
          }
          switches := switches + [Switch(e.desktop, e.binding.pane, path)];
        }
        j := j + 1;
      }
      assert deskMap[..j] == deskMap;
      o := Outcome(switches, None);
    }

    /**
     * `nodegraphdesk`: reacts to a context change in pane `editor` from
     * `oldPath` to `newPath` while `currentDesktop` is shown.
     */
    method ContextChanged(editor: string, currentDesktop: string, oldPath: string, newPath: string,
                          hostDesktops: set<string>) returns (o: Outcome)
      ensures !Gate(deskMap, currentDesktop, editor) || oldPath == newPath ==> o == Outcome([], None)
      ensures Gate(deskMap, currentDesktop, editor) && oldPath != newPath ==>
        match DeriveContext(newPath, subnetworkMapping, subnetworkContextMap)
        case SplitFailed => o == Outcome([], Some(IndexError))
        case EmptyKeyFailed => o == Outcome([], Some(IndexError))
        case Unmatched => o == Outcome([], None)
        case Context(c) => Scanned(deskMap, c, newPath, hostDesktops, o)
    {
      o := Outcome([], None);
      var i := 0;
      while i < |deskMap|
        invariant 0 <= i <= |deskMap|
        invariant forall j | 0 <= j < i :: !(deskMap[j].desktop == currentDesktop && deskMap[j].binding.pane == editor)
        invariant o == Outcome([], None)
      {
        var e := deskMap[i];
        if e.desktop == currentDesktop && e.binding.pane == editor {
          if oldPath != newPath {
            var d := NewContext(newPath);
            match d
            case SplitFailed => o := Outcome([], Some(IndexError));
            case EmptyKeyFailed => o := Outcome([], Some(IndexError));
            case Unmatched =>
            case Context(c) => o := SwitchDesktops(c, newPath, hostDesktops);
          }
          break;
        }
        i := i + 1;
      }
    }
  }

  /** `resetPath`: every pane tab named `paneName`, in order, is sent to `path`. */
  method ResetPath(tabs: seq<PaneTab>, paneName: string, path: string) returns (cds: seq<Cd>)
    ensures forall n | 0 <= n < |cds| ::
      cds[n].path == path && cds[n].tab < |tabs| && tabs[cds[n].tab].name == paneName
    ensures forall k | 0 <= k < |tabs| && tabs[k].name == paneName :: Cd(k, path) in cds
    ensures forall n, m | 0 <= n < m < |cds| :: cds[n].tab < cds[m].tab
  {
    cds := [];
    for k := 0 to |tabs|
      invariant forall n | 0 <= n < |cds| ::
        cds[n].path == path && cds[n].tab < k && tabs[cds[n].tab].name == paneName
      invariant forall j | 0 <= j < k && tabs[j].name == paneName :: Cd(j, path) in cds
      invariant forall n, m | 0 <= n < m < |cds| :: cds[n].tab < cds[m].tab
    {
      if tabs[k].name == paneName {
        cds := cds + [Cd(k, path)];
      }
    }
  }
}

/**
 * A client of the handlers: desktop DeskA shows pane paneX on `/obj`,
 * DeskB shows paneY on `/shop`; changing paneX to `/shop` while DeskA is
 * current switches to DeskB and sends paneY there.
 */
module DeskScenario {
  import opened Opt
  import opened DeskMap
  import opened Ui
  import opened Resolution
  import opened Desk

  method SwitchToShop() returns (o: Outcome)
    ensures o == Outcome([Switch("DeskB", "paneY", "/shop")], None)
  {
    var t := [Entry("DeskA", Binding("paneX", "obj")), Entry("DeskB", Binding("paneY", "shop"))];
    var config := new Config(t, false, []);
    assert Gate(config.deskMap, "DeskA", "paneX") by {
      assert config.deskMap[0].desktop == "DeskA";
    }
    assert DeriveContext("/shop", false, []) == Context("shop") by {
      DeriveAbsolute("shop", "", []);
      assert [Paths.Slash] + "shop" == "/shop";
    }
    o := config.ContextChanged("paneX", "DeskA", "/obj", "/shop", {"DeskA", "DeskB"});
    assert Matches(t, "shop", "/shop") == [Switch("DeskB", "paneY", "/shop")] by {
      assert t[..1] == [t[0]];
      assert t[..1][..0] == [];
    }
  }
}
