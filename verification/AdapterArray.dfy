/** The adapter registry of gps/core/LocApiBase.cpp: a fixed array of pointers that is kept free of holes,
  * and the event mask the registered adapters ask for together.
  */
module AdapterArray {

  const MAX_ADAPTERS: nat := 10

  // A 64-bit event mask as the set of its bit numbers: |= is union and &= ~ is difference.
  type EventMask = set<nat>

  /** Messages to the modem interface: (re)open with the current mask, or close. */
  datatype Message = Open | Close

  class LocAdapter {
    var evtMask: EventMask
    constructor (mask: EventMask) { evtMask := mask; }
  }

  // ---------------------------------------------------------------- sequences of distinct entries

  ghost predicate Distinct<T>(s: seq<T>) {
    forall i, j :: 0 <= i < j < |s| ==> s[i] != s[j]
  }

  ghost function IndexOf<T>(s: seq<T>, x: T): (i: nat)
    requires x in s
    ensures i < |s| && s[i] == x
  {
    var i :| 0 <= i < |s| && s[i] == x;
    i
  }

  /** The entries after the last one has taken x's place. */
  ghost function Removed<T>(s: seq<T>, x: T): seq<T>
    requires x in s
  {
    s[IndexOf(s, x) := s[|s| - 1]][..|s| - 1]
  }

  /** Only x leaves, and the entries stay distinct. */
  lemma RemovedIsDifference<T>(s: seq<T>, x: T)
    requires Distinct(s) && x in s
    ensures Distinct(Removed(s, x))
    ensures forall y :: y in Removed(s, x) <==> y in s && y != x
  {
    var i, n, r := IndexOf(s, x), |s|, Removed(s, x);
    assert forall k :: 0 <= k < n - 1 ==> r[k] == if k == i then s[n - 1] else s[k];
    forall y | y in s && y != x ensures y in r {
      var k :| 0 <= k < n && s[k] == y;
      assert if k == n - 1 then r[i] == y else r[k] == y;
    }
  }

  /** Removing the adapter added last restores the registry. */
  lemma RemoveUndoesAdd<T>(s: seq<T>, x: T)
    requires x !in s
    ensures Removed(s + [x], x) == s
  {
    var i := IndexOf(s + [x], x);
    assert forall k :: 0 <= k < |s| ==> (s + [x])[k] in s;
  }

  // ---------------------------------------------------------------- every run of adds and removes

  /** The registered adapters and the messages sent so far. */
  datatype Registry<T> = Registry(contents: seq<T>, sent: seq<Message>)

  datatype Op<T> = Add(adapter: T) | Remove(adapter: T)

  ghost function Step<T>(r: Registry<T>, op: Op<T>): Registry<T> {
    match op
    case Add(x) =>
      if x in r.contents || |r.contents| == MAX_ADAPTERS then r
      else Registry(r.contents + [x], r.sent + [Open])
    case Remove(x) =>
      if x !in r.contents then r
      else
        var rest := Removed(r.contents, x);
        Registry(rest, r.sent + [if rest == [] then Close else Open])
  }

  ghost function Run<T>(ops: seq<Op<T>>): Registry<T> {
    if ops == [] then Registry([], []) else Step(Run(ops[..|ops| - 1]), ops[|ops| - 1])
  }

  /** The adapters are distinct and fit, a close follows an open, and the interface is closed exactly when
    * there is no adapter.
    */
  ghost predicate Inv<T>(r: Registry<T>) {
    && Distinct(r.contents) && |r.contents| <= MAX_ADAPTERS
    && (forall i :: 0 <= i < |r.sent| && r.sent[i] == Close ==> i > 0 && r.sent[i - 1] == Open)
    && (r.contents == [] <==> r.sent == [] || r.sent[|r.sent| - 1] == Close)
  }

  lemma StepKeepsInv<T>(r: Registry<T>, op: Op<T>)
    requires Inv(r)
    ensures Inv(Step(r, op))
  {
    if op.Remove? && op.adapter in r.contents {
      RemovedIsDifference(r.contents, op.adapter);
    }
  }

  lemma {:induction false} RunKeepsInv<T>(ops: seq<Op<T>>)
    ensures Inv(Run(ops))
  {
    if ops != [] {
      RunKeepsInv(ops[..|ops| - 1]);
      StepKeepsInv(Run(ops[..|ops| - 1]), ops[|ops| - 1]);
    }
  }

  // ---------------------------------------------------------------- which adapters, and how many messages

  /** The adapters that the operations ask for, of which there is room for ten. */
  ghost function Wanted<T>(ops: seq<Op<T>>): set<T> {
    if ops == [] then {} else
      var before := Wanted(ops[..|ops| - 1]);
      match ops[|ops| - 1]
      case Add(x) => if |before| < 10 then before + {x} else before
      case Remove(x) => before - {x}
  }

  /** How many operations change that set. */
  ghost function Effective<T>(ops: seq<Op<T>>): nat {
    if ops == [] then 0 else
      var init := ops[..|ops| - 1];
      Effective(init) + (if Wanted(ops) != Wanted(init) then 1 else 0)
  }

  ghost function Members<T>(s: seq<T>): set<T> { set x | x in s }

  lemma {:induction false} DistinctSize<T>(s: seq<T>)
    requires Distinct(s)
    ensures |Members(s)| == |s|
  {
    if s != [] {
      DistinctSize(s[..|s| - 1]);
      assert s == s[..|s| - 1] + [s[|s| - 1]];
      assert Members(s) == Members(s[..|s| - 1]) + {s[|s| - 1]};
    }
  }

  /** Over every run the registry holds exactly the wanted adapters, and one message has been sent for each operation
    * that changed them.
    */
  lemma {:induction false} RunHoldsWanted<T>(ops: seq<Op<T>>)
    ensures Members(Run(ops).contents) == Wanted(ops) && |Run(ops).sent| == Effective(ops)
  {
    if ops != [] {
      var init := ops[..|ops| - 1];
      RunHoldsWanted(init);
      RunKeepsInv(init);
      StepHolds(Run(init), ops[|ops| - 1]);
    }
  }

  lemma StepHolds<T>(r: Registry<T>, op: Op<T>)
    requires Inv(r)
    ensures var before, now := Members(r.contents), Members(Step(r, op).contents);
            && now == (match op
                       case Add(x) => if |before| < 10 then before + {x} else before
                       case Remove(x) => before - {x})
            && |Step(r, op).sent| == |r.sent| + (if now != before then 1 else 0)
  {
    DistinctSize(r.contents);
    match op
    case Add(x) => assert x in r.contents + [x] && forall y :: y in r.contents + [x] <==> y in r.contents || y == x;
    case Remove(x) =>
      if x in r.contents {
        RemovedIsDifference(r.contents, x);
        assert x in Members(r.contents) && x !in Members(Step(r, op).contents);
      }
  }

  /** A new adapter comes last; removing one moves at most the last one, into its place. */
  lemma OrderKept<T>(r: Registry<T>, x: T, i: nat)
    requires Inv(r) && i < |r.contents|
    ensures Step(r, Add(x)).contents[i] == r.contents[i]
    ensures x in r.contents && i < |r.contents| - 1 ==>
              Step(r, Remove(x)).contents[i] ==
              (if r.contents[i] == x then r.contents[|r.contents| - 1] else r.contents[i])
  {
  }

  class LocApiBase {
    const mLocAdapters: array<LocAdapter?>
    const mExcludedMask: EventMask
    ghost var contents: seq<LocAdapter>
    ghost var sent: seq<Message>

    ghost predicate Valid()
      reads this, mLocAdapters
    {
      && mLocAdapters.Length == MAX_ADAPTERS
      && |contents| <= MAX_ADAPTERS && Distinct(contents)
      && (forall i :: 0 <= i < |contents| ==> mLocAdapters[i] == contents[i])
      && (forall i :: |contents| <= i < MAX_ADAPTERS ==> mLocAdapters[i] == null)
    }

    ghost function View(): Registry<LocAdapter>
      reads this
    {
      Registry(contents, sent)
    }

    constructor (excludedMask: EventMask)
      ensures Valid() && View() == Run([]) && mExcludedMask == excludedMask && fresh(mLocAdapters)
    {
      mLocAdapters := new LocAdapter?[MAX_ADAPTERS](_ => null);
      mExcludedMask, contents, sent := excludedMask, [], [];
    }

    method AddAdapter(adapter: LocAdapter)
      requires Valid()
      modifies this`contents, this`sent, mLocAdapters
      ensures Valid() && View() == Step(old(View()), Add(adapter))
    {
      var i := 0;
      while i < MAX_ADAPTERS && mLocAdapters[i] != adapter
        invariant 0 <= i <= |contents| && Valid() && contents == old(contents) && sent == old(sent)
        invariant adapter !in contents[..i]
      {
        if mLocAdapters[i] == null {
          mLocAdapters[i] := adapter;
          sent := sent + [Open];
          contents := contents + [adapter];
          break;
        }
        i := i + 1;
      }
    }

    /** The index the removal loop ends at is past the last entry, so it stops after one removal. */
    method RemoveAdapter(adapter: LocAdapter)
      requires Valid()
      modifies this`contents, this`sent, mLocAdapters
      ensures Valid() && View() == Step(old(View()), Remove(adapter))
    {
      ghost var all := contents;
      var i := 0;
      while i < MAX_ADAPTERS && mLocAdapters[i] != null
        invariant 0 <= i <= MAX_ADAPTERS && Valid()
        invariant contents == all ==> i <= |all| && sent == old(sent) && adapter !in all[..i]
        invariant contents != all ==> i == |all| && adapter in all && contents == Removed(all, adapter)
                                      && sent == old(sent) + [if contents == [] then Close else Open]
      {
        if mLocAdapters[i] == adapter {
          mLocAdapters[i] := null;
          var j := i;
          i := i + 1;
          while i < MAX_ADAPTERS && mLocAdapters[i] != null
            invariant j < i <= |all|
            invariant forall k :: 0 <= k < MAX_ADAPTERS ==>
                        mLocAdapters[k] == if k < |all| && k != j then all[k] else null
          {
            i := i + 1;
          }
          i := i - 1;
          mLocAdapters[j] := mLocAdapters[i];
          mLocAdapters[i] := null;
          assert IndexOf(all, adapter) == j;
          contents := Removed(all, adapter);
          RemovedIsDifference(all, adapter);
          if i == 0 {
            sent := sent + [Close];
          } else {
            sent := sent + [Open];
          }
        }
        i := i + 1;
      }
      assert contents == all ==> all[..i] == all;
    }

    /** The events some registered adapter asks for, minus the excluded ones. */
    method GetEvtMask() returns (mask: EventMask)
      requires Valid()
      ensures forall b :: b in mask <==>
                b !in mExcludedMask && exists i :: 0 <= i < |contents| && b in contents[i].evtMask
    {
      mask := {};
      var i := 0;
      while i < MAX_ADAPTERS && mLocAdapters[i] != null
        invariant 0 <= i <= |contents|
        invariant forall b :: b in mask <==> exists k :: 0 <= k < i && b in contents[k].evtMask
      {
        mask := mask + mLocAdapters[i].evtMask;
        i := i + 1;
      }
      return mask - mExcludedMask;
    }
  }
}
