# nodegraphdesk: desktop/context bindings, modelled in Dafny

nodegraphdesk is a Houdini plugin that binds a network context (the first
path segment of a node-graph pane, such as `obj`, `mat` or `out`) to a
desktop. Its configuration includes `nodegraphdesk_map`, an insertion-ordered
dictionary from a desktop name to a pair `(pane name, context)`. The
plugin works through two handlers:

- **assignContext** (run by a hotkey). It finds the current network-editor
  tab under the cursor and reads the context from that tab's path. If
  some desktop, possibly the current one, already holds that context, a
  dialog offers Reassign, Remove or Cancel. The handler then binds, moves or drops an entry and
  writes the configuration back.
- **nodegraphdesk** (run on a context-change event of a network editor, while that editor is under the cursor).
  It acts only when the current desktop is bound to the editor that
  raised the event and the path really changed. It derives the new
  context from the path. When `subnetwork_mapping` is on and the path
  has more than two pieces, it instead runs a loop over
  `subnetwork_context_map` (see "## Findings"). Every desktop bound to that context
  is made current and its pane is sent to the new path (`resetPath`).

The model has seven modules:

- `Paths` (paths.dfy): Python's `str.split('/')` and its inverse `join`, with round-trip lemmas both ways. Also the network context at index 1 and the substring test.
- `DeskMap` (desk_map.dfy): the table as a sequence of entries with unique keys. Dictionary lookup, item assignment (`Put`: a present key keeps its place, a new key is appended) and `pop` (`Pop`). Also `isVailedContext` and the one-context-per-desktop rule.
- `Ui` (ui.dfy): the host's inputs and the effects the handlers ask for. The inputs are pane tabs. The effects are desktop switches and `cd` calls.
- `Assignment` (assignment.dfy): `AssignSpec`, the table and outcome after `assignContext`, with one lemma per dialog branch and the rule-preservation lemma.
- `Resolution` (resolution.dfy): the gate, the derivation of the new context, and the switch scan (`Matches`), with their lemmas. The subnetwork loop is modelled as written (`SubFold`), beside the corrected definition (`LastSubMatch`).
- `Desk` (desk.dfy): class `Config`, the configuration document. Its methods carry the source's loops: `AssignContext` (mutates the table, counts writes), `NewContext`, `SwitchDesktops` and `ContextChanged` (read-only). `ResetPath` is there too.
- `DeskScenario` (desk.dfy): a verified two-desktop call of `ContextChanged`.

Host inputs are parameters: the pane tabs, the current desktop's name, the
dialog's button index, the event's editor and paths, and the set of
desktops the host has. Effects are returned values. Each `Switch(desktop,
pane, path)` stands for `setAsCurrent` on the desktop followed by
`resetPath(pane, path)`. Each `Cd(tab, path)` stands for one `cd`. A
write of the configuration increments `Config.saves`.

Facts about the code that shape the model:

- A conflict is found by context across all desktops (`isVailedContext`), and the current desktop is one of them.
- Every desktop bound to the new context is activated, in table order, so the last one ends up current.
- To the table, the code has exactly two kinds of change: item assignment and `pop`.
- The two handlers compute the context differently. `assignContext` always uses piece 1 of the path. `nodegraphdesk` uses the subnetwork loop when that mapping is on and the path has more than two pieces.

## Model

| member | source | states |
|---|---|---|
| `Paths.Split` | nodegraphdesk/python3.11libs/nodegraphdesk.py:98 | `split('/')` gives at least one piece, and no piece contains `'/'` |
| `Paths.JoinSplit` | nodegraphdesk/python3.11libs/nodegraphdesk.py:98 | joining the pieces of a split with `'/'` gives back the path |
| `Paths.SplitJoin` | nodegraphdesk/python3.11libs/nodegraphdesk.py:98 | splitting a join of `'/'`-free pieces gives back the pieces |
| `Paths.SplitWithoutSep` | nodegraphdesk/python3.11libs/nodegraphdesk.py:98 | a string without `'/'` splits into itself alone |
| `Paths.SplitAfterPiece` | nodegraphdesk/python3.11libs/nodegraphdesk.py:98 | a `'/'` after a `'/'`-free prefix ends the first piece and the rest splits independently |
| `Paths.NetworkContextOfAbsolute` | nodegraphdesk/python3.11libs/nodegraphdesk.py:98 | for `/a` and `/a/...` with `a` free of `'/'`, the network context is `a` |
| `Paths.NoNetworkContext` | nodegraphdesk/python3.11libs/nodegraphdesk.py:98 | index 1 of the split is missing (IndexError) exactly when the path has no `'/'` |
| `Paths.ObjContext` | nodegraphdesk/python3.11libs/nodegraphdesk.py:98 | the context of `/obj/geo1` is `obj` |
| `DeskMap.IsVailedContext` | nodegraphdesk/python3.11libs/nodegraphdesk.py:74-82 | returns `""` when no entry has the context; otherwise the desktop of the first entry, in table order, whose context equals it |
| `DeskMap.IsVailedContextEmpty` | nodegraphdesk/python3.11libs/nodegraphdesk.py:74-82 | when no desktop is named `""`, the result is `""` exactly when no entry has the context |
| `DeskMap.IsVailedContextFirst` | nodegraphdesk/python3.11libs/nodegraphdesk.py:79-81 | the result is the desktop at the first position whose context matches |
| `DeskMap.LookupPut` | nodegraphdesk/python3.11libs/nodegraphdesk.py:117 | after item assignment the key maps to the new binding, every other key keeps its binding, and keys stay unique |
| `DeskMap.LookupPop` | nodegraphdesk/python3.11libs/nodegraphdesk.py:112 | after `pop` the key is absent, every other key keeps its binding, and keys stay unique |
| `DeskMap.PopKeepsOneContext` | nodegraphdesk/python3.11libs/nodegraphdesk.py:3-5 | popping an entry never creates a context bound to two desktops |
| `DeskMap.PopClearsContext` | nodegraphdesk/python3.11libs/nodegraphdesk.py:108 | under the one-context rule, popping the desktop bound to a context leaves that context unbound |
| `DeskMap.PutFreshKeepsOneContext` | nodegraphdesk/python3.11libs/nodegraphdesk.py:117 | binding a context no desktop has keeps the one-context rule |
| `Assignment.FirstEligible` | nodegraphdesk/python3.11libs/nodegraphdesk.py:93-95 | the chosen tab is current, a network editor and under the cursor, and no earlier tab is; none is chosen exactly when no tab qualifies |
| `Assignment.AssignWithoutConflict` | nodegraphdesk/python3.11libs/nodegraphdesk.py:116-118 | with no desktop holding the context: outcome Bound, one save, the current desktop maps to (pane, context) whatever it had before, every other desktop unchanged |
| `Assignment.AssignReassign` | nodegraphdesk/python3.11libs/nodegraphdesk.py:104-110 | on a conflict answered Reassign: the conflicting desktop loses its binding, the current desktop maps to (pane, context), all other desktops unchanged, one save |
| `Assignment.AssignRemove` | nodegraphdesk/python3.11libs/nodegraphdesk.py:111-113 | on a conflict answered Remove: only the conflicting desktop loses its binding, the current desktop is not added, one save |
| `Assignment.AssignSavesExactly` | nodegraphdesk/python3.11libs/nodegraphdesk.py:93-119 | a save happens exactly when an eligible tab with a context exists and there is no conflict or the answer is Reassign or Remove; otherwise (no tab, IndexError, Cancel) the table is unchanged |
| `Assignment.ReassignOwnContextMovesToEnd` | nodegraphdesk/python3.11libs/nodegraphdesk.py:107-109 | reassigning a desktop's own context gives exactly the table without its entry, followed by its new entry |
| `Assignment.AssignKeepsOneContext` | nodegraphdesk/python3.11libs/nodegraphdesk.py:100-118 | unique keys, and no context bound to two desktops, both survive every branch of `assignContext` |
| `Resolution.GateIsLookup` | nodegraphdesk/python3.11libs/nodegraphdesk.py:143-144 | the gate holds exactly when the current desktop is bound and its bound pane is the event's editor |
| `Resolution.LastSubMatch` | nodegraphdesk/python3.11libs/nodegraphdesk.py:150-152 | the corrected subnetwork lookup (see Findings): no result exactly when no value of the map occurs in the last piece; otherwise a key whose value occurs there and after which no value does |
| `Resolution.DeriveIsNetworkContext` | nodegraphdesk/python3.11libs/nodegraphdesk.py:148-154 | with subnetwork mapping off or at most two pieces, the new context is the network context `assignContext` reads from a path, and it agrees with the corrected derivation |
| `Resolution.DeriveAbsolute` | nodegraphdesk/python3.11libs/nodegraphdesk.py:153-154 | with subnetwork mapping off, `/a` and `/a/...` select context `a` |
| `Resolution.Matches` | nodegraphdesk/python3.11libs/nodegraphdesk.py:155-159 | every switch is for a desktop bound to the context, with its bound pane and the new path, and every such desktop is switched to |
| `Resolution.MatchesAppend` | nodegraphdesk/python3.11libs/nodegraphdesk.py:155-159 | the switches of a concatenated table are those of the first part followed by those of the second, so switches follow table order |
| `Resolution.NoMatchNoSwitch` | nodegraphdesk/python3.11libs/nodegraphdesk.py:155-156 | when no desktop has the context, nothing switches |
| `Resolution.LastSwitchIsLastMatch` | nodegraphdesk/python3.11libs/nodegraphdesk.py:155-159 | the last switch, the desktop left current, is for the last desktop in table order bound to the context |
| `Resolution.OneContextOneSwitch` | nodegraphdesk/python3.11libs/nodegraphdesk.py:155-159 | under the one-context rule at most one desktop is switched to |
| `Paths.NetworkContext` | nodegraphdesk/python3.11libs/nodegraphdesk.py:98 | piece 1 of `split('/')`, None where Python raises IndexError; a context never contains `'/'` |
| `Paths.IsSubstring` | nodegraphdesk/python3.11libs/nodegraphdesk.py:151 | Python's `needle in hay`; a needle that occurs is no longer than the hay |
| `DeskMap.Lookup` | nodegraphdesk/python3.11libs/nodegraphdesk.py:80 | the dictionary value of a key: None exactly when no entry has the key, otherwise the binding of an entry with that key |
| `DeskMap.Put` | nodegraphdesk/python3.11libs/nodegraphdesk.py:117 | item assignment: the key maps to the new binding, the table grows only for a new key, and every entry of another key keeps its position |
| `DeskMap.Pop` | nodegraphdesk/python3.11libs/nodegraphdesk.py:112 | `pop`: the key is gone from a dictionary, the table shrinks by one exactly when the key was present, and no entry is invented |
| `DeskMap.PopShape` | nodegraphdesk/python3.11libs/nodegraphdesk.py:108 | `pop` closes the gap: entries before the key keep their positions, entries after it move up by one |
| `DeskMap.PopKeepsUnique` | nodegraphdesk/python3.11libs/nodegraphdesk.py:108 | `pop` keeps the keys unique |
| `Assignment.AssignSpec` | nodegraphdesk/python3.11libs/nodegraphdesk.py:85-119 | no eligible tab exactly when no tab qualifies; an unsaved outcome leaves the table as it was; Bound and Reassigned leave the current desktop mapped to the new binding |
| `Resolution.Gate` | nodegraphdesk/python3.11libs/nodegraphdesk.py:143-144 | the loop's condition, met by some entry; when met the current desktop has a binding |
| `Resolution.SubFold` | nodegraphdesk/python3.11libs/nodegraphdesk.py:150-152 | the loop as written: it stays on the path pieces exactly when no value occurs in the last piece, and any key it ends on is a key of the map |
| `Resolution.SubFoldRaisedStays` | nodegraphdesk/python3.11libs/nodegraphdesk.py:151 | once `new_context[-1]` has raised on the key `""`, the rest of the map does not change the result |
| `Resolution.SubFoldFirstMatch` | nodegraphdesk/python3.11libs/nodegraphdesk.py:150-152 | with non-empty keys and values of two or more characters, the loop as written ends on the FIRST key whose value occurs in the last piece |
| `Resolution.DeriveContext` | nodegraphdesk/python3.11libs/nodegraphdesk.py:148-154 | the context the code derives: `SplitFailed` (the IndexError of line 154) exactly when the path has fewer than two pieces; `EmptyKeyFailed` (the IndexError of line 151) only on the mapping branch; Unmatched only with mapping on and no value in the last piece; a key of the map on the mapping branch |
| `Resolution.IntendedContext` | nodegraphdesk/python3.11libs/nodegraphdesk.py:148-154 | the corrected derivation never raises on a key, and on the mapping branch names a key whose value occurs in the last piece |
| `Resolution.SubnetworkAgreesWhenUnambiguous` | nodegraphdesk/python3.11libs/nodegraphdesk.py:150-152 | the loop as written and the corrected one agree when keys are non-empty, values have two or more characters, and at most one value occurs in the last piece |
| `Resolution.SubnetworkRebindingCounterexample` | nodegraphdesk/python3.11libs/nodegraphdesk.py:150-152 | on `/p/q/xy` with map `a: x, b: y`, the loop as written gives `a` and the corrected loop gives `b` |
| `Resolution.Scanned` | nodegraphdesk/python3.11libs/nodegraphdesk.py:155-159 | what a scan may return; every switch it reports goes to the new path and a desktop the host has |
| `Desk.Config.constructor` | nodegraphdesk/python3.11libs/nodegraphdesk.py:39-44 | the loaded document holds the given table and subnetwork settings, and nothing has been written yet |
| `Desk.Config.AssignContext` | nodegraphdesk/python3.11libs/nodegraphdesk.py:85-119 | the new table and outcome are those of `AssignSpec`; `saves` grows by one exactly on Bound, Reassigned or Removed; keys stay unique and the one-context rule is kept |
| `Desk.Config.NewContext` | nodegraphdesk/python3.11libs/nodegraphdesk.py:148-154 | the loop tests each value against `new_context[-1]`: the last piece, then the last character of the key matched most recently, raising IndexError on the key `""`; the result is `DeriveContext` of the new path |
| `Desk.Config.SwitchDesktops` | nodegraphdesk/python3.11libs/nodegraphdesk.py:155-159 | the scan switches to every bound desktop in order, or stops with KeyError at the first one the host lacks after switching those before it |
| `Desk.Config.ContextChanged` | nodegraphdesk/python3.11libs/nodegraphdesk.py:133-160 | nothing happens unless the gate holds and the path changed; otherwise IndexError (at line 151 or 154), no match, or the scan for the context `DeriveContext` derives as the code does |
| `Desk.ResetPath` | nodegraphdesk/python3.11libs/nodegraphdesk.py:122-130 | exactly the tabs with the given name, in tab order, are sent to the path |
| `DeskScenario.SwitchToShop` | nodegraphdesk/python3.11libs/nodegraphdesk.py:143-159 | DeskA(paneX, obj) and DeskB(paneY, shop): paneX moving from `/obj` to `/shop` on DeskA switches to DeskB and sends paneY to `/shop` |

## Findings

| source | as written | input that shows it | evidently intended | confidence | as-written member | corrected member |
|---|---|---|---|---|---|---|
| nodegraphdesk/python3.11libs/nodegraphdesk.py:150-152 | after a match, `new_context` is rebound to the key, a string. Each later value is then tested against `new_context[-1]`, the key's last character, not the last path piece. The key `""` makes `''[-1]` raise IndexError on the next pass | `subnetwork_mapping` on, `subnetwork_context_map = {"a": "x", "b": "y"}`, new path `/p/q/xy`: the result is `a`, though `y` also occurs in `xy` | every value is tested against the last path piece, and the last matching key wins | medium, not executed | `Resolution.SubnetworkRebindingCounterexample` | `Resolution.LastSubMatch` |

The handlers (`Desk.Config.NewContext`, `Desk.Config.ContextChanged`)
model the code as written, through `Resolution.DeriveContext`.
`Resolution.IntendedContext` is the same derivation built on
`Resolution.LastSubMatch`. `Resolution.SubnetworkAgreesWhenUnambiguous`
proves that the two agree in the common case: non-empty keys, values of
two or more characters, and at most one value occurring in the last piece.

## Left out

- `getConfig` and `setConfig` (JSON file I/O): the document is the `Config` object's fields. A write is an increment of `saves`. Read and write failures and malformed JSON are not modelled.
- Configuration keys the core does not read are not modelled. These are `init_desktops_startup` and the hotkey entries.
- `getDesktopDict` and `hou.ui.desktops()`: these become the `hostDesktops` parameter. A missing key is the `KeyError` fault.
- `selectDesktopDialog` is not modelled. Nothing calls it.
- `hou.ui.paneTabs`, `curDesktop` and `displayMessage`: these become parameters (the tab list, the desktop name, the button index). The dialog's message text is not modelled.
- `setAsCurrent` and `pane.cd` become returned `Switch` and `Cd` values. Which pane tabs exist after the desktop changes is host state. So `Switch` names the pane, and `ResetPath` is modelled over a given tab list.
- `_handleEventCoroutine` and the replacement of `nodegraph.handleEventCoroutine` are not modelled. They are host event plumbing. The fields of the `ContextEvent` become `ContextChanged`'s parameters.
- `nodegraphhooks.createEventHandler` is not modelled. It is a hotkey test that calls `assignContext`.
- The values of `subnetwork_context_map` are taken to be strings. A non-string value would make `in` raise TypeError.
- `Assignment.AssignKeepsOneContext`: the rule is proved only for tables with no desktop named `""`. `isVailedContext`'s result is tested for truthiness, so a desktop named `""` bound to the context would read as no conflict. Host desktops have non-empty names.
- `Assignment.AssignReassign`: stated only when the conflicting desktop's name is not `""`, for the same reason.
- `Assignment.AssignRemove`: stated only when the conflicting desktop's name is not `""`, for the same reason.
- `Assignment.ReassignOwnContextMovesToEnd`: stated only when the current desktop's name is not `""`, for the same reason.
- `Assignment.AssignSavesExactly`: stated only for tables with no desktop named `""`, for the same reason.
- `Desk.Config.AssignContext`: it keeps the one-context rule only for tables with no desktop named `""`, for the same reason.
