/**
 * The `nodegraphdesk_map` table: an insertion-ordered dictionary from a
 * desktop name to the pane and network context bound to it. Python's
 * dictionary is a sequence of entries here, so that the iteration order
 * that `isVailedContext` and the desktop-switch scan depend on is kept.
 */
module DeskMap {
  import opened Opt

  /** The value stored under a desktop: `(pane_name, network_context)`. */
  datatype Binding = Binding(pane: string, context: string)

  datatype Entry = Entry(desktop: string, binding: Binding)

  type Table = seq<Entry>

  /** A dictionary holds each desktop at most once. */
  predicate UniqueKeys(t: Table)
  {
    forall i, j | 0 <= i < j < |t| :: t[i].desktop != t[j].desktop
  }

  /** The one-context-per-desktop rule: no context is bound to two desktops. */
  predicate OneContext(t: Table)
  {
    forall i, j | 0 <= i < j < |t| :: t[i].binding.context != t[j].binding.context
  }

  /** No desktop in the table has the empty name. */
  predicate NoEmptyDesktop(t: Table)
  {
    forall i | 0 <= i < |t| :: t[i].desktop != ""
  }

  /** Where the dictionary keeps key `d`: its first position, if any. */
  function Find(t: Table, d: string): (r: Option<nat>)
    ensures r.Some? ==> r.value < |t| && t[r.value].desktop == d
    ensures r.Some? ==> forall j | 0 <= j < r.value :: t[j].desktop != d
    ensures r.None? <==> forall j | 0 <= j < |t| :: t[j].desktop != d
    decreases |t|
  {
    if t == [] then None
    else if t[0].desktop == d then Some(0)
    else match Find(t[1..], d)
      case None => None
      case Some(k) => Some(k + 1)
  }

  /** The value of `nodegraphdesk_map[d]`, None where that raises KeyError. */
  function Lookup(t: Table, d: string): (r: Option<Binding>)
    ensures r.None? <==> forall i | 0 <= i < |t| :: t[i].desktop != d
    ensures r.Some? ==> exists i | 0 <= i < |t| :: t[i] == Entry(d, r.value)
  {
    match Find(t, d)
    case None => None
    case Some(i) => Some(t[i].binding)
  }

  /**
   * `nodegraphdesk_map[d] = b`: a present key keeps its position and
   * takes the new value, an absent one is appended.
   */
  function Put(t: Table, d: string, b: Binding): (r: Table)
    ensures Lookup(r, d) == Some(b)
    ensures |r| == if Find(t, d).Some? then |t| else |t| + 1
    ensures forall j | 0 <= j < |t| && t[j].desktop != d :: r[j] == t[j]
  {
    match Find(t, d)
    case Some(i) =>
      var r := t[i := Entry(d, b)];
      assert forall j | 0 <= j < |t| :: r[j].desktop == t[j].desktop;
      r
    case None =>
      var r := t + [Entry(d, b)];
      assert r[|t|].desktop == d && forall j | 0 <= j < |t| :: r[j] == t[j];
      r
  }

  /** `nodegraphdesk_map.pop(d)`: the entry of `d` leaves, the rest keep their order. */
  function Pop(t: Table, d: string): (r: Table)
    ensures UniqueKeys(t) ==> Lookup(r, d) == None
    ensures |r| == if Find(t, d).Some? then |t| - 1 else |t|
    ensures forall e | e in r :: e in t
  {
    match Find(t, d)
    case Some(i) => t[..i] + t[i + 1..]
    case None => t
  }

  /**
   * `isVailedContext`: the first desktop, in table order, bound to
   * `context`, or "" when there is none.
   */
  function IsVailedContext(t: Table, context: string): (r: string)
    ensures (forall i | 0 <= i < |t| :: t[i].binding.context != context) ==> r == ""
    ensures (exists i | 0 <= i < |t| :: t[i].binding.context == context) ==>
      exists i | 0 <= i < |t| :: t[i].binding.context == context && r == t[i].desktop &&
        forall j | 0 <= j < i :: t[j].binding.context != context
    decreases |t|
  {
    if t == [] then ""
    else if t[0].binding.context == context then t[0].desktop
    else
      var r := IsVailedContext(t[1..], context);
      assert forall i | 1 <= i < |t| :: t[i] == t[1..][i - 1];
      r
  }

  /** With no desktop named "", the lookup returns "" exactly when no desktop has the context. */
  lemma IsVailedContextEmpty(t: Table, context: string)
    requires NoEmptyDesktop(t)
    ensures IsVailedContext(t, context) == "" <==> forall i | 0 <= i < |t| :: t[i].binding.context != context
  {
  }

  /** The lookup names the first desktop bound to `context`. */
  lemma IsVailedContextFirst(t: Table, context: string, m: nat)
    requires m < |t| && t[m].binding.context == context
    requires forall j | 0 <= j < m :: t[j].binding.context != context
    ensures IsVailedContext(t, context) == t[m].desktop
  {
  }

  /** In a dictionary, the value of a stored key is its entry's binding. */
  lemma LookupAt(t: Table, j: nat)
    requires UniqueKeys(t) && j < |t|
    ensures Lookup(t, t[j].desktop) == Some(t[j].binding)
  {
  }

  /** After `t[d] = b`, `d` maps to `b` and every other key to what it did before. */
  lemma {:induction false} LookupPut(t: Table, d: string, b: Binding, k: string)
    requires UniqueKeys(t)
    ensures UniqueKeys(Put(t, d, b))
    ensures Lookup(Put(t, d, b), k) == if k == d then Some(b) else Lookup(t, k)
  {
    var u := Put(t, d, b);
    match Find(t, d)
    case Some(i) =>
      assert forall j | 0 <= j < |t| :: u[j].desktop == t[j].desktop;
      LookupAt(u, i);
      if k != d {
        match Find(t, k)
        case Some(j) => LookupAt(u, j);
        case None =>
      }
    case None =>
      assert u[|t|].desktop == d;
      LookupAt(u, |t|);
      if k != d {
        match Find(t, k)
        case Some(j) => LookupAt(u, j);
        case None =>
      }
  }

  /** `t.pop(d)` closes the gap where `d` stood. */
  lemma PopShape(t: Table, d: string, i: nat)
    requires Find(t, d) == Some(i)
    ensures |Pop(t, d)| == |t| - 1
    ensures forall j | 0 <= j < |t| - 1 :: Pop(t, d)[j] == if j < i then t[j] else t[j + 1]
  {
  }

  /** Popping keeps the keys unique. */
  lemma PopKeepsUnique(t: Table, d: string)
    requires UniqueKeys(t)
    ensures UniqueKeys(Pop(t, d))
  {
    match Find(t, d)
    case None =>
    case Some(i) => PopShape(t, d, i);
  }

  /** After `t.pop(d)`, `d` is absent and every other key maps to what it did before. */
  lemma {:induction false} LookupPop(t: Table, d: string, k: string)
    requires UniqueKeys(t)
    ensures UniqueKeys(Pop(t, d))
    ensures Lookup(Pop(t, d), k) == if k == d then None else Lookup(t, k)
  {
    PopKeepsUnique(t, d);
    if k != d {
      match Find(t, d)
      case None =>
      case Some(i) =>
        var u := Pop(t, d);
        PopShape(t, d, i);
        match Find(t, k)
        case Some(j) =>
          if j < i {
            assert u[j] == t[j];
            LookupAt(u, j);
          } else {
            assert u[j - 1] == t[j];
            LookupAt(u, j - 1);
          }
        case None =>
          assert forall j | 0 <= j < |u| :: u[j].desktop != k;
    }
  }

  /** Popping keeps the one-context rule and drops nothing but the popped entry. */
  lemma PopKeepsOneContext(t: Table, d: string)
    requires OneContext(t)
    ensures OneContext(Pop(t, d))
  {
    match Find(t, d)
    case None =>
    case Some(i) =>
      var u := Pop(t, d);
      assert forall j | 0 <= j < |u| :: u[j] == if j < i then t[j] else t[j + 1];
  }

  /** Popping a desktop bound to `c` leaves no desktop bound to `c` when the rule held. */
  lemma PopClearsContext(t: Table, m: nat)
    requires UniqueKeys(t) && OneContext(t) && m < |t|
    ensures forall j | 0 <= j < |Pop(t, t[m].desktop)| ::
      Pop(t, t[m].desktop)[j].binding.context != t[m].binding.context
  {
    var u := Pop(t, t[m].desktop);
    assert Find(t, t[m].desktop) == Some(m);
    assert forall j | 0 <= j < |u| :: u[j] == if j < m then t[j] else t[j + 1];
  }

  /** Binding a context nobody has keeps the one-context rule. */
  lemma PutFreshKeepsOneContext(t: Table, d: string, b: Binding)
    requires OneContext(t)
    requires forall j | 0 <= j < |t| :: t[j].binding.context != b.context
    ensures OneContext(Put(t, d, b))
  {
  }
}
