/** Turnouts, the table that holds them, and the service that throws them. */
module Turnouts {

  datatype TurnoutPosition = Closed | Thrown

  datatype TurnoutState = TurnoutState(
    address: int, name: string, position: TurnoutPosition, locked: bool, disabled: bool)
  {
    predicate Blocked() { locked || disabled }
  }

  class Turnout {
    var layoutAddress: int
    var displayName: string
    var currentPosition: TurnoutPosition
    var turnoutLocked: bool
    var turnoutDisabled: bool

    function State(): TurnoutState
      reads this
    {
      TurnoutState(layoutAddress, displayName, currentPosition, turnoutLocked, turnoutDisabled)
    }

    constructor (state: TurnoutState)
      ensures State() == state
    {
      layoutAddress, displayName, currentPosition := state.address, state.name, state.position;
      turnoutLocked, turnoutDisabled := state.locked, state.disabled;
    }

    /** The source's copy assignment. */
    method Assign(state: TurnoutState)
      modifies this
      ensures State() == state
    {
      layoutAddress, displayName, currentPosition := state.address, state.name, state.position;
      turnoutLocked, turnoutDisabled := state.locked, state.disabled;
    }

    predicate CanThrow()
      reads this
    {
      !turnoutLocked && !turnoutDisabled
    }

    method ThrowStraight()
      modifies this
      ensures State() == if old(CanThrow()) then old(State()).(position := Closed) else old(State())
    {
      if !CanThrow() { return; }
      currentPosition := Closed;
    }

    method ThrowDiverging()
      modifies this
      ensures State() == if old(CanThrow()) then old(State()).(position := Thrown) else old(State())
    {
      if !CanThrow() { return; }
      currentPosition := Thrown;
    }

    method Toggle()
      modifies this
      ensures State() == if old(CanThrow())
                         then old(State()).(position := if old(currentPosition) == Closed then Thrown else Closed)
                         else old(State())
    {
      if !CanThrow() { return; }
      if currentPosition == Closed {
        ThrowDiverging();
        return;
      }
      ThrowStraight();
    }
  }

  // -------------------------------------------------------------- the table

  const MAX_TURNOUTS: nat := 64

  ghost predicate UniqueAddresses(table: seq<TurnoutState>)
  {
    forall i, j :: 0 <= i < j < |table| ==> table[i].address != table[j].address
  }

  /** Index of the first entry with this address, or the table's size. */
  function IndexOf(table: seq<TurnoutState>, address: int): (r: nat)
    ensures r <= |table|
    ensures r < |table| ==> table[r].address == address
    ensures forall i :: 0 <= i < r ==> table[i].address != address
  {
    if table == [] || table[0].address == address then 0 else IndexOf(table[1..], address) + 1
  }

  function Added(table: seq<TurnoutState>, t: TurnoutState): seq<TurnoutState>
  {
    var i := IndexOf(table, t.address);
    if i < |table| then table[i := t] else if |table| >= MAX_TURNOUTS then table else table + [t]
  }

  /** Adding a turnout: unless its address is new and the table full, it is then
      found under its address; nothing else is lost, added or moved. */
  lemma AddedIsFound(table: seq<TurnoutState>, t: TurnoutState)
    requires UniqueAddresses(table)
    ensures var after, known := Added(table, t), exists i :: 0 <= i < |table| && table[i].address == t.address;
            && UniqueAddresses(after) && |table| <= |after|
            && (forall i :: 0 <= i < |table| && table[i].address != t.address ==> after[i] == table[i])
            && (known ==> |after| == |table| && exists i :: 0 <= i < |after| && after[i] == t)
            && (!known && |table| < MAX_TURNOUTS ==> |after| == |table| + 1 && after[|table|] == t)
            && (!known && |table| >= MAX_TURNOUTS ==> after == table)
  {
    var k := IndexOf(table, t.address);
    forall i | 0 <= i < |table| && table[i].address == t.address ensures i == k {}
    if k < |table| { assert Added(table, t)[k] == t; }
  }

  lemma UniqueWithOneMore(table: seq<TurnoutState>, t: TurnoutState)
    requires UniqueAddresses(table) && IndexOf(table, t.address) == |table|
    ensures UniqueAddresses(table + [t])
  {}

  class TurnoutCollection {
    const turnouts: seq<Turnout>   // the array of turnouts, of which the first `count` are in use
    var count: nat

    ghost predicate Valid()
      reads this, turnouts
    {
      && |turnouts| == MAX_TURNOUTS && count <= MAX_TURNOUTS
      && (forall i, j :: 0 <= i < j < MAX_TURNOUTS ==> turnouts[i] != turnouts[j])
      && UniqueAddresses(Contents(count))
    }

    /** The first n entries. */
    function Contents(n: nat): (table: seq<TurnoutState>)
      requires n <= |turnouts|
      reads turnouts
      ensures |table| == n && forall i :: 0 <= i < n ==> table[i] == turnouts[i].State()
    {
      if n == 0 then [] else Contents(n - 1) + [turnouts[n - 1].State()]
    }

    ghost function Table(): seq<TurnoutState>
      requires Valid()
      reads this, turnouts
    {
      Contents(count)
    }

    constructor ()
      ensures Valid() && Table() == [] && fresh(turnouts)
    {
      var slots: seq<Turnout> := [];
      for n := 0 to MAX_TURNOUTS
        invariant |slots| == n && fresh(slots)
        invariant forall i, j :: 0 <= i < j < n ==> slots[i] != slots[j]
      {
        var t := new Turnout(TurnoutState(0, "", Closed, false, false));
        slots := slots + [t];
      }
      turnouts := slots;
      count := 0;
    }

    method Add(t: TurnoutState)
      requires Valid()
      modifies this, turnouts
      ensures Valid() && Table() == Added(old(Table()), t)
    {
      for i := 0 to count
        invariant unchanged(this) && forall x <- turnouts :: unchanged(x)
        invariant forall j :: 0 <= j < i ==> turnouts[j].layoutAddress != t.address
      {
        if turnouts[i].layoutAddress == t.address {
          assert IndexOf(Table(), t.address) == i;
          Overwrite(i, t);
          return;
        }
      }
      assert IndexOf(Table(), t.address) == count;
      if count >= MAX_TURNOUTS {
        return;
      }
      Append(t);
    }

    method Overwrite(i: nat, t: TurnoutState)
      requires Valid() && i < count && turnouts[i].layoutAddress == t.address
      modifies turnouts
      ensures Valid() && Table() == old(Table())[i := t]
    {
      ghost var table := Table();
      turnouts[i].Assign(t);
      assert Contents(count) == table[i := t];
    }

    method Append(t: TurnoutState)
      requires Valid() && count < MAX_TURNOUTS && IndexOf(Table(), t.address) == count
      modifies this, turnouts
      ensures Valid() && Table() == old(Table()) + [t]
    {
      ghost var table := Table();
      turnouts[count].Assign(t);
      assert Contents(count) == table;
      UniqueWithOneMore(table, t);
      count := count + 1;
      assert Contents(count) == table + [t];
    }

    /** A pointer to the entry with this address, if there is one. */
    method GetByAddress(address: int) returns (found: Turnout?)
      requires Valid()
      ensures found != null <==> IndexOf(Table(), address) < count
      ensures found != null ==> found == turnouts[IndexOf(Table(), address)]
    {
      for i := 0 to count
        invariant forall j :: 0 <= j < i ==> turnouts[j].layoutAddress != address
      {
        if turnouts[i].layoutAddress == address {
          assert IndexOf(Table(), address) == i;
          return turnouts[i];
        }
      }
      return null;
    }
  }

  // ------------------------------------------------------------ the service

  datatype TurnoutServiceResult = Success | NotFound | Locked | Disabled

  function Validated(table: seq<TurnoutState>, address: int): TurnoutServiceResult
  {
    var i := IndexOf(table, address);
    if i == |table| then NotFound
    else if table[i].locked then Locked else if table[i].disabled then Disabled else Success
  }

  /** Validation distinguishes exactly these four cases of the table's entries. */
  lemma ValidationDecides(table: seq<TurnoutState>, address: int)
    requires UniqueAddresses(table)
    ensures Validated(table, address) == NotFound <==>
            forall i :: 0 <= i < |table| ==> table[i].address != address
    ensures Validated(table, address) == Locked <==>
            exists i :: 0 <= i < |table| && table[i].address == address && table[i].locked
    ensures Validated(table, address) == Disabled <==>
            exists i :: 0 <= i < |table| && table[i].address == address && !table[i].locked && table[i].disabled
    ensures Validated(table, address) == Success <==>
            exists i :: 0 <= i < |table| && table[i].address == address && !table[i].Blocked()
  {
    var k := IndexOf(table, address);
    forall i | 0 <= i < |table| && table[i].address == address ensures i == k {}
  }

  function WithPosition(table: seq<TurnoutState>, address: int, position: TurnoutPosition): (r: seq<TurnoutState>)
    requires Validated(table, address) == Success
    ensures |r| == |table|
    ensures UniqueAddresses(table) ==> UniqueAddresses(r)
  {
    var i := IndexOf(table, address);
    table[i := table[i].(position := position)]
  }

  class TurnoutService {
    const collection: TurnoutCollection

    constructor (collection: TurnoutCollection)
      ensures this.collection == collection
    {
      this.collection := collection;
    }

    method ValidateTurnout(turnout: Turnout?) returns (result: TurnoutServiceResult)
      ensures turnout == null ==> result == NotFound
      ensures turnout != null ==>
                result == if turnout.turnoutLocked then Locked
                          else if turnout.turnoutDisabled then Disabled else Success
    {
      if turnout == null { return NotFound; }
      if turnout.turnoutLocked { return Locked; }
      if turnout.turnoutDisabled { return Disabled; }
      return Success;
    }

    method ThrowStraight(address: int) returns (result: TurnoutServiceResult)
      requires collection.Valid()
      modifies collection.turnouts
      ensures collection.Valid()
      ensures result == Validated(old(collection.Table()), address)
      ensures collection.Table() == if result == Success then WithPosition(old(collection.Table()), address, Closed)
                                    else old(collection.Table())
    {
      ghost var table := collection.Table();
      var turnout := collection.GetByAddress(address);
      var validation := ValidateTurnout(turnout);
      if validation != Success {
        return validation;
      }
      turnout.ThrowStraight();
      assert collection.Contents(collection.count) == WithPosition(table, address, Closed);
      return Success;
    }

    method ThrowDiverging(address: int) returns (result: TurnoutServiceResult)
      requires collection.Valid()
      modifies collection.turnouts
      ensures collection.Valid()
      ensures result == Validated(old(collection.Table()), address)
      ensures collection.Table() == if result == Success then WithPosition(old(collection.Table()), address, Thrown)
                                    else old(collection.Table())
    {
      ghost var table := collection.Table();
      var turnout := collection.GetByAddress(address);
      var validation := ValidateTurnout(turnout);
      if validation != Success {
        return validation;
      }
      turnout.ThrowDiverging();
      assert collection.Contents(collection.count) == WithPosition(table, address, Thrown);
      return Success;
    }
  }
}
