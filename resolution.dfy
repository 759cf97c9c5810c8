/**
 * What `nodegraphdesk` decides on a context-change event: whether the
 * event may switch desktops at all, which context the new path belongs
 * to (optionally through `subnetwork_context_map`), and which desktops
 * are activated and sent to the new path.
 */
module Resolution {
  import opened Opt
  import opened Paths
  import opened DeskMap
  import opened Ui

  /**
   * The gate: some entry has the current desktop as key and the event's
   * editor as its pane.
   */
  predicate Gate(t: Table, current: string, editor: string)
    ensures Gate(t, current, editor) ==> Lookup(t, current).Some?
  {
    exists i | 0 <= i < |t| :: t[i].desktop == current && t[i].binding.pane == editor
  }

  /** In a dictionary the gate reads the current desktop's one binding. */
  lemma GateIsLookup(t: Table, current: string, editor: string)
    requires UniqueKeys(t)
    ensures Gate(t, current, editor) <==> Lookup(t, current).Some? && Lookup(t, current).value.pane == editor
  {
    if Gate(t, current, editor) {
      var i :| 0 <= i < |t| && t[i].desktop == current && t[i].binding.pane == editor;
      LookupAt(t, i);
    }
  }

  /**
   * The value of `new_context` during the loop over
   * `subnetwork_context_map`: still the list of path pieces, already
   * rebound to a key (a string), or the loop raised IndexError reading
   * `new_context[-1]` of the key "".
   */
  datatype SubState = Pieces | Key(name: string) | EmptyKeyIndexError

  /**
   * One pass of that loop as written: the value is tested against
   * `new_context[-1]`, which is the last path piece while `new_context`
   * is the list and the last character of the key once it is a key.
   */
  function SubStep(s: SubState, key: string, value: string, last: string): SubState
  {
    match s
    case EmptyKeyIndexError => EmptyKeyIndexError
    case Pieces => if IsSubstring(value, last) then Key(key) else Pieces
    case Key(k) =>
      if k == "" then EmptyKeyIndexError
      else if IsSubstring(value, [k[|k| - 1]]) then Key(key)
      else s
  }

  /** The whole loop over the map, in key order, starting from the pieces of the path. */
  function SubFold(scm: seq<(string, string)>, last: string): (r: SubState)
    ensures r.Pieces? <==> forall i | 0 <= i < |scm| :: !IsSubstring(scm[i].1, last)
    ensures r.Key? ==> exists i | 0 <= i < |scm| :: scm[i].0 == r.name
    decreases |scm|
  {
    if scm == [] then Pieces
    else
      var n := |scm| - 1;
      assert forall i | 0 <= i < n :: scm[..n][i] == scm[i];
      SubStep(SubFold(scm[..n], last), scm[n].0, scm[n].1, last)
  }

  /** Once the loop has raised, the rest of the map does not matter. */
  lemma {:induction false} SubFoldRaisedStays(scm: seq<(string, string)>, last: string, k: nat)
    requires k <= |scm| && SubFold(scm[..k], last) == EmptyKeyIndexError
    ensures SubFold(scm, last) == EmptyKeyIndexError
    decreases |scm|
  {
    if k < |scm| {
      var n := |scm| - 1;
      assert scm[..n][..k] == scm[..k];
      SubFoldRaisedStays(scm[..n], last, k);
    } else {
      assert scm[..k] == scm;
    }
  }

  /**
   * With non-empty keys and values of two or more characters (which never
   * occur in one character), the loop as written returns the FIRST key
   * whose value occurs in the last piece.
   */
  lemma {:induction false} SubFoldFirstMatch(scm: seq<(string, string)>, last: string, m: nat)
    requires forall i | 0 <= i < |scm| :: scm[i].0 != "" && |scm[i].1| >= 2
    requires m < |scm| && IsSubstring(scm[m].1, last)
    requires forall j | 0 <= j < m :: !IsSubstring(scm[j].1, last)
    ensures SubFold(scm, last) == Key(scm[m].0)
    decreases |scm|
  {
    var n := |scm| - 1;
    var prefix := scm[..n];
    assert forall i | 0 <= i < n :: prefix[i] == scm[i];
    if m < n {
      SubFoldFirstMatch(prefix, last, m);
      var k := scm[m].0;
      assert !IsSubstring(scm[n].1, [k[|k| - 1]]);
    }
  }

  /**
   * The last key of `subnetwork_context_map`, in its order, whose value
   * occurs in `segment`; None when no value does. This is the evidently
   * intended result of the loop at lines 150-152 of
   * nodegraphdesk.py.
   */
  function LastSubMatch(scm: seq<(string, string)>, segment: string): (r: Option<string>)
    ensures r.None? <==> forall i | 0 <= i < |scm| :: !IsSubstring(scm[i].1, segment)
    ensures r.Some? ==> exists i | 0 <= i < |scm| ::
      && scm[i].0 == r.value
      && IsSubstring(scm[i].1, segment)
      && forall j | i < j < |scm| :: !IsSubstring(scm[j].1, segment)
    decreases |scm|
  {
    if scm == [] then None
    else
      var n := |scm| - 1;
      if IsSubstring(scm[n].1, segment) then Some(scm[n].0)
      else
        var r := LastSubMatch(scm[..n], segment);
        assert forall i | 0 <= i < n :: scm[..n][i] == scm[i];
        r
  }

  /** The context a new path selects, or why it selects none. */
  datatype Derived =
    | Context(name: string)
      /** Subnetwork mapping applied and no value matched: `new_context` stays a list. */
    | Unmatched
      /** `split('/')[1]` raised IndexError. */
    | SplitFailed
      /** `new_context[-1]` of the key "" raised IndexError. */
    | EmptyKeyFailed

  /**
   * The new context, as the source computes it: with more than two path
   * pieces and subnetwork mapping on, the result of the loop over the
   * map; otherwise piece 1.
   */
  function DeriveContext(path: string, subnetworkMapping: bool, scm: seq<(string, string)>): (r: Derived)
    ensures r.SplitFailed? <==> |Split(path, Slash)| < 2
    ensures r.Unmatched? ==> (subnetworkMapping &&
      forall i | 0 <= i < |scm| :: !IsSubstring(scm[i].1, Split(path, Slash)[|Split(path, Slash)| - 1]))
    ensures r.Context? && subnetworkMapping && |Split(path, Slash)| > 2 ==>
      exists i | 0 <= i < |scm| :: scm[i].0 == r.name
  {
    var pieces := Split(path, Slash);
    if |pieces| > 2 && subnetworkMapping then
      match SubFold(scm, pieces[|pieces| - 1])
      case Key(k) => Context(k)
      case Pieces => Unmatched
      case EmptyKeyIndexError => EmptyKeyFailed
    else if |pieces| > 1 then Context(pieces[1])
    else SplitFailed
  }

  /** The derivation with the loop corrected: the last key whose value occurs in the last piece. */
  function IntendedContext(path: string, subnetworkMapping: bool, scm: seq<(string, string)>): (r: Derived)
    ensures !r.EmptyKeyFailed?
    ensures r.Context? && subnetworkMapping && |Split(path, Slash)| > 2 ==>
      exists i | 0 <= i < |scm| :: scm[i].0 == r.name &&
        IsSubstring(scm[i].1, Split(path, Slash)[|Split(path, Slash)| - 1])
  {
    var pieces := Split(path, Slash);
    if |pieces| > 2 && subnetworkMapping then
      match LastSubMatch(scm, pieces[|pieces| - 1])
      case Some(k) => Context(k)
      case None => Unmatched
    else if |pieces| > 1 then Context(pieces[1])
    else SplitFailed
  }

  /**
   * The loop as written and the corrected one agree when keys are non-empty,
   * values have two or more characters, and at most one value occurs in
   * the last piece.
   */
  lemma SubnetworkAgreesWhenUnambiguous(path: string, subnetworkMapping: bool, scm: seq<(string, string)>)
    requires forall i | 0 <= i < |scm| :: scm[i].0 != "" && |scm[i].1| >= 2
    requires forall i, j | 0 <= i < j < |scm| ::
      var pieces := Split(path, Slash);
      !(IsSubstring(scm[i].1, pieces[|pieces| - 1]) && IsSubstring(scm[j].1, pieces[|pieces| - 1]))
    ensures DeriveContext(path, subnetworkMapping, scm) == IntendedContext(path, subnetworkMapping, scm)
  {
    var pieces := Split(path, Slash);
    var last := pieces[|pieces| - 1];
    if |pieces| > 2 && subnetworkMapping && LastSubMatch(scm, last).Some? {
      var m :| 0 <= m < |scm| && scm[m].0 == LastSubMatch(scm, last).value && IsSubstring(scm[m].1, last);
      SubFoldFirstMatch(scm, last, m);
    }
  }

  /**
   * A path on which the loop as written and the corrected one differ:
   * after "x" matches in "xy", `new_context` is "a", and "y" is then tested
   * against "a" instead of "xy".
   */
  lemma SubnetworkRebindingCounterexample()
    ensures DeriveContext("/p/q/xy", true, [("a", "x"), ("b", "y")]) == Context("a")
    ensures IntendedContext("/p/q/xy", true, [("a", "x"), ("b", "y")]) == Context("b")
  {
    SplitExample();
    FoldExample();
  }

  lemma SplitExample()
    ensures Split("/p/q/xy", Slash) == ["", "p", "q", "xy"]
  {
    SplitWithoutSep("xy", Slash);
    SplitAfterPiece("q", Slash, "xy");
    assert "q" + [Slash] + "xy" == "q/xy";
    SplitAfterPiece("p", Slash, "q/xy");
    assert "p" + [Slash] + "q/xy" == "p/q/xy";
    SplitAfterPiece("", Slash, "p/q/xy");
    assert "" + [Slash] + "p/q/xy" == "/p/q/xy";
  }

  lemma FoldExample()
    ensures SubFold([("a", "x"), ("b", "y")], "xy") == Key("a")
    ensures LastSubMatch([("a", "x"), ("b", "y")], "xy") == Some("b")
  {
    var scm := [("a", "x"), ("b", "y")];
    assert IsPrefix("x", "xy"[0..]);
    assert IsPrefix("y", "xy"[1..]);
    assert !IsSubstring("y", "a") by {
      assert "a"[0..] == "a" && "a"[..1] == "a" && "a"[1..] == "";
      assert "a"[0] != "y"[0];
      assert !IsPrefix("y", "a"[0..]) && !IsPrefix("y", "a"[1..]);
    }
    assert scm[..1] == [("a", "x")] && scm[..1][..0] == [];
    assert SubFold(scm[..1], "xy") == Key("a");
  }

  /**
   * Without subnetwork mapping, or on a path of at most two pieces, a
   * context change selects the same context `assignContext` would bind
   * for that path.
   */
  lemma DeriveIsNetworkContext(path: string, subnetworkMapping: bool, scm: seq<(string, string)>)
    requires !subnetworkMapping || |Split(path, Slash)| <= 2
    ensures DeriveContext(path, subnetworkMapping, scm) ==
      match NetworkContext(path)
      case Some(c) => Context(c)
      case None => SplitFailed
    ensures DeriveContext(path, subnetworkMapping, scm) == IntendedContext(path, subnetworkMapping, scm)
  {
  }

  /** `/a` and `/a/b/...` select `a` when subnetwork mapping is off. */
  lemma DeriveAbsolute(a: string, rest: string, scm: seq<(string, string)>)
    requires Slash !in a
    ensures DeriveContext([Slash] + a, false, scm) == Context(a)
    ensures DeriveContext([Slash] + a + [Slash] + rest, false, scm) == Context(a)
  {
    NetworkContextOfAbsolute(a, rest);
  }

  /** The switches for context `c`: one per desktop bound to it, in table order. */
  function Matches(t: Table, c: string, path: string): (r: seq<Switch>)
    ensures |r| <= |t|
    ensures forall s | s in r ::
      (s.path == path && exists i | 0 <= i < |t| :: t[i].binding.context == c && s == Switch(t[i].desktop, t[i].binding.pane, path))
    ensures forall i | 0 <= i < |t| && t[i].binding.context == c ::
      Switch(t[i].desktop, t[i].binding.pane, path) in r
    decreases |t|
  {
    if t == [] then []
    else
      var n := |t| - 1;
      var r := Matches(t[..n], c, path);
      assert forall i | 0 <= i < n :: t[..n][i] == t[i];
      if t[n].binding.context == c then r + [Switch(t[n].desktop, t[n].binding.pane, path)] else r
  }

  /** The scan distributes over concatenation: the table's order is the switch order. */
  lemma {:induction false} MatchesAppend(a: Table, b: Table, c: string, path: string)
    ensures Matches(a + b, c, path) == Matches(a, c, path) + Matches(b, c, path)
    decreases |b|
  {
    if b != [] {
      var n := |b| - 1;
      assert (a + b)[..|a| + n] == a + b[..n];
      MatchesAppend(a, b[..n], c, path);
    } else {
      assert a + b == a;
    }
  }

  /** A table in which nobody has context `c` yields no switch. */
  lemma {:induction false} NoMatchNoSwitch(t: Table, c: string, path: string)
    requires forall i | 0 <= i < |t| :: t[i].binding.context != c
    ensures Matches(t, c, path) == []
    decreases |t|
  {
    if t != [] {
      var n := |t| - 1;
      assert forall i | 0 <= i < n :: t[..n][i] == t[i];
      NoMatchNoSwitch(t[..n], c, path);
    }
  }

  /** The last switch, which leaves its desktop current, is for the last desktop bound to `c`. */
  lemma LastSwitchIsLastMatch(t: Table, c: string, path: string, k: nat)
    requires k < |t| && t[k].binding.context == c
    requires forall j | k < j < |t| :: t[j].binding.context != c
    ensures Matches(t, c, path) != []
    ensures Matches(t, c, path)[|Matches(t, c, path)| - 1] == Switch(t[k].desktop, t[k].binding.pane, path)
  {
    var head, tail := t[..k + 1], t[k + 1..];
    assert head + tail == t;
    MatchesAppend(head, tail, c, path);
    assert forall i | 0 <= i < |tail| :: tail[i] == t[k + 1 + i];
    NoMatchNoSwitch(tail, c, path);
    assert head[..k] == t[..k];
    assert Matches(head, c, path) == Matches(t[..k], c, path) + [Switch(t[k].desktop, t[k].binding.pane, path)];
  }

  /** Under the one-context rule at most one desktop is switched to. */
  lemma {:induction false} OneContextOneSwitch(t: Table, c: string, path: string)
    requires OneContext(t)
    ensures |Matches(t, c, path)| <= 1
    decreases |t|
  {
    if t != [] {
      var n := |t| - 1;
      var prefix := t[..n];
      assert forall i | 0 <= i < n :: prefix[i] == t[i];
      if t[n].binding.context == c {
        NoMatchNoSwitch(prefix, c, path);
      } else {
        OneContextOneSwitch(prefix, c, path);
      }
    }
  }

  /**
   * Why the event stopped early: `getDesktopDict()[d]` raised KeyError, or
   * IndexError was raised, either by `split('/')[1]` on a path with fewer
   * than two pieces or by `new_context[-1]` once `new_context` is the key `""`.
   */
  datatype Fault = KeyError(desktop: string) | IndexError

  /** The switches an event performed, in order, and the exception that ended it, if any. */
  datatype Outcome = Outcome(switches: seq<Switch>, fault: Option<Fault>)

  /**
   * The scan for context `c` ran to completion or stopped at the first desktop
   * bound to `c` that the host does not have, after switching to those before it.
   */
  predicate Scanned(t: Table, c: string, path: string, hostDesktops: set<string>, o: Outcome)
    ensures Scanned(t, c, path, hostDesktops, o) ==>
      forall s | s in o.switches :: s.path == path && s.desktop in hostDesktops
  {
    || (&& o.fault.None?
        && o.switches == Matches(t, c, path)
        && forall k | 0 <= k < |t| && t[k].binding.context == c :: t[k].desktop in hostDesktops)
    || (exists m | 0 <= m < |t| ::
        && t[m].binding.context == c
        && t[m].desktop !in hostDesktops
        && (forall k | 0 <= k < m && t[k].binding.context == c :: t[k].desktop in hostDesktops)
        && o == Outcome(Matches(t[..m], c, path), Some(KeyError(t[m].desktop))))
  }
}
