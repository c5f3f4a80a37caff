/** Routes: named lists of turnout commands, and their immediate activation. */
module Routes {
  import opened Turnouts

  datatype TurnoutCommand = TurnoutCommand(address: int, position: TurnoutPosition)

  const MAX_TURNOUT_COMMANDS_PER_ROUTE: nat := 64
  const MAX_ROUTES: nat := 32

  ghost predicate DistinctTurnouts(commands: seq<TurnoutCommand>)
  {
    forall i, j :: 0 <= i < j < |commands| ==> commands[i].address != commands[j].address
  }

  predicate Contains(commands: seq<TurnoutCommand>, address: int)
  {
    exists i :: 0 <= i < |commands| && commands[i].address == address
  }

  datatype TurnoutPositionLookup = TurnoutPositionLookup(found: bool, position: TurnoutPosition)

  class Route {
    var routeId: int
    var routeName: string
    const commands: array<TurnoutCommand>
    var commandCount: nat

    ghost predicate Valid()
      reads this, commands
    {
      && commands.Length == MAX_TURNOUT_COMMANDS_PER_ROUTE
      && commandCount <= commands.Length
      && DistinctTurnouts(commands[..commandCount])
    }

    function Commands(): seq<TurnoutCommand>
      requires commandCount <= commands.Length
      reads this, commands
    {
      commands[..commandCount]
    }

    constructor (id: int, name: string)
      ensures Valid() && fresh(commands) && Commands() == []
      ensures routeId == id && routeName == name
    {
      routeId, routeName := id, name;
      commands := new TurnoutCommand[MAX_TURNOUT_COMMANDS_PER_ROUTE](_ => TurnoutCommand(0, Closed));
      commandCount := 0;
    }

    method ContainsTurnout(address: int) returns (found: bool)
      requires Valid()
      ensures found == Contains(Commands(), address)
    {
      for i := 0 to commandCount
        invariant forall j :: 0 <= j < i ==> commands[j].address != address
      {
        if commands[i].address == address {
          assert Commands()[i].address == address;
          return true;
        }
      }
      return false;
    }

    method AddTurnout(address: int, position: TurnoutPosition) returns (ok: bool)
      requires Valid()
      modifies this, commands
      ensures Valid() && routeId == old(routeId) && routeName == old(routeName)
      ensures ok <==> !Contains(old(Commands()), address) && |old(Commands())| < MAX_TURNOUT_COMMANDS_PER_ROUTE
      ensures Commands() == old(Commands()) + if ok then [TurnoutCommand(address, position)] else []
    {
      var contained := ContainsTurnout(address);
      if contained {
        return false;
      }
      if commandCount >= MAX_TURNOUT_COMMANDS_PER_ROUTE {
        return false;
      }
      ghost var before := Commands();
      assert forall i :: 0 <= i < |before| ==> before[i].address != address;
      commands[commandCount] := TurnoutCommand(address, position);
      commandCount := commandCount + 1;
      assert Commands() == before + [TurnoutCommand(address, position)];
      return true;
    }

    method GetTurnoutPosition(address: int) returns (r: TurnoutPositionLookup)
      requires Valid()
      ensures r.found == Contains(Commands(), address)
      ensures r.found ==> TurnoutCommand(address, r.position) in Commands()
    {
      for i := 0 to commandCount
        invariant forall j :: 0 <= j < i ==> commands[j].address != address
      {
        if commands[i].address == address {
          assert Commands()[i] == TurnoutCommand(address, commands[i].position);
          return TurnoutPositionLookup(true, commands[i].position);
        }
      }
      return TurnoutPositionLookup(false, Closed);
    }

    /** The source's copy assignment. */
    method Assign(other: Route)
      requires Valid() && other.Valid() && this != other && commands != other.commands
      modifies this, commands
      ensures Valid() && Commands() == other.Commands()
      ensures routeId == other.routeId && routeName == other.routeName
    {
      routeId, routeName, commandCount := other.routeId, other.routeName, other.commandCount;
      forall i | 0 <= i < commands.Length {
        commands[i] := other.commands[i];
      }
      assert Commands() == other.Commands();
    }
  }

  // ------------------------------------------------- what an activation does

  /** The first n commands, with a command for every entry they name. */
  function PositionAfter(t: TurnoutState, commands: seq<TurnoutCommand>, n: nat): TurnoutPosition
    requires n <= |commands|
  {
    if n == 0 then t.position
    else if commands[n - 1].address == t.address then commands[n - 1].position
    else PositionAfter(t, commands, n - 1)
  }

  /** The table once the first n commands were carried out, where present. */
  function Positioned(table: seq<TurnoutState>, commands: seq<TurnoutCommand>, n: nat): (r: seq<TurnoutState>)
    requires n <= |commands|
    ensures |r| == |table|
    ensures forall i :: 0 <= i < |table| ==> r[i] == table[i].(position := PositionAfter(table[i], commands, n))
  {
    seq(|table|, i requires 0 <= i < |table| => table[i].(position := PositionAfter(table[i], commands, n)))
  }

  predicate BlockedCommand(table: seq<TurnoutState>, command: TurnoutCommand)
  {
    var r := Validated(table, command.address); r == Locked || r == Disabled
  }

  /** The first command from n on whose turnout is present and locked or disabled,
      or the number of commands. */
  function FirstBlocked(table: seq<TurnoutState>, commands: seq<TurnoutCommand>, n: nat): (k: nat)
    requires n <= |commands|
    ensures n <= k <= |commands|
    ensures forall i :: n <= i < k ==> !BlockedCommand(table, commands[i])
    ensures k < |commands| ==> BlockedCommand(table, commands[k])
    decreases |commands| - n
  {
    if n == |commands| || BlockedCommand(table, commands[n]) then n else FirstBlocked(table, commands, n + 1)
  }

  /** Some of the first n commands names a turnout that is not there. */
  predicate SomeMissing(table: seq<TurnoutState>, commands: seq<TurnoutCommand>, n: nat): (r: bool)
    requires n <= |commands|
    ensures r <==> exists i :: 0 <= i < n && Validated(table, commands[i].address) == NotFound
  {
    n > 0 && (Validated(table, commands[n - 1].address) == NotFound || SomeMissing(table, commands, n - 1))
  }

  datatype RouteActivationResult = Activated | RouteNotFound | TurnoutLocked | TurnoutDisabled | PartialSuccess

  function ResultOf(table: seq<TurnoutState>, commands: seq<TurnoutCommand>): RouteActivationResult
  {
    var k := FirstBlocked(table, commands, 0);
    if k < |commands|
    then if Validated(table, commands[k].address) == Locked then TurnoutLocked else TurnoutDisabled
    else if SomeMissing(table, commands, k) then PartialSuccess else Activated
  }

  function TableAfter(table: seq<TurnoutState>, commands: seq<TurnoutCommand>): seq<TurnoutState>
  {
    Positioned(table, commands, FirstBlocked(table, commands, 0))
  }

  ghost predicate Outcome(table: seq<TurnoutState>, commands: seq<TurnoutCommand>, after: seq<TurnoutState>,
                          result: RouteActivationResult)
  {
    after == TableAfter(table, commands) && result == ResultOf(table, commands)
  }

  /** The first i commands were carried out, and none of them was blocked. */
  ghost predicate Underway(table: seq<TurnoutState>, commands: seq<TurnoutCommand>, i: nat,
                           now: seq<TurnoutState>, missing: bool)
  {
    && i <= |commands| && UniqueAddresses(table)
    && now == Positioned(table, commands, i)
    && FirstBlocked(table, commands, 0) == FirstBlocked(table, commands, i)
    && missing == SomeMissing(table, commands, i)
  }

  class RouteService {
    const turnoutService: TurnoutService
    const routes: seq<Route>   // the array of routes, of which the first `count` are in use
    var count: nat

    ghost predicate Valid()
      reads this, routes, set r <- routes :: r.commands
    {
      && |routes| == MAX_ROUTES && count <= MAX_ROUTES
      && (forall i :: 0 <= i < MAX_ROUTES ==> routes[i].Valid())
      && (forall i, j :: 0 <= i < j < MAX_ROUTES ==>
            routes[i] != routes[j] && routes[i].commands != routes[j].commands)
      && (forall i, j :: 0 <= i < j < count ==> routes[i].routeId != routes[j].routeId)
    }

    constructor (service: TurnoutService)
      ensures Valid() && turnoutService == service && count == 0
    {
      var slots: seq<Route> := [];
      for n := 0 to MAX_ROUTES
        invariant |slots| == n
        invariant forall i :: 0 <= i < n ==> fresh(slots[i]) && fresh(slots[i].commands) && slots[i].Valid()
        invariant forall i, j :: 0 <= i < j < n ==> slots[i] != slots[j] && slots[i].commands != slots[j].commands
      {
        var r := new Route(0, "");
        slots := slots + [r];
      }
      turnoutService := service;
      routes := slots;
      count := 0;
    }

    /** Index of the first route with this id, from i on, or the number of routes. */
    function RouteIndex(id: int, i: nat): (r: nat)
      requires i <= count <= |routes|
      reads this, routes
      decreases count - i
      ensures i <= r <= count
      ensures r < count ==> routes[r].routeId == id
      ensures forall j :: i <= j < r ==> routes[j].routeId != id
    {
      if i == count || routes[i].routeId == id then i else RouteIndex(id, i + 1)
    }

    method GetRoute(id: int) returns (found: Route?)
      requires Valid()
      ensures found == if RouteIndex(id, 0) < count then routes[RouteIndex(id, 0)] else null
    {
      for i := 0 to count
        invariant RouteIndex(id, 0) == RouteIndex(id, i)
      {
        if routes[i].routeId == id {
          return routes[i];
        }
      }
      return null;
    }

    /** The route may be one that GetRoute returned; otherwise it is none of the
        array's, and its commands are its own. */
    method AddRoute(route: Route) returns (ok: bool)
      requires Valid() && route.Valid()
      requires forall i :: 0 <= i < MAX_ROUTES ==>
                 (i < count && routes[i] == route) || (routes[i] != route && routes[i].commands != route.commands)
      modifies this, routes, set r <- routes :: r.commands
      ensures Valid()
      ensures ok <==> old(count < MAX_ROUTES && RouteIndex(route.routeId, 0) == count)
      ensures count == if ok then old(count) + 1 else old(count)
      ensures forall i :: 0 <= i < old(count) ==>
                routes[i].routeId == old(routes[i].routeId) && routes[i].Commands() == old(routes[i].Commands())
      ensures ok ==> routes[old(count)].routeId == route.routeId && routes[old(count)].Commands() == route.Commands()
    {
      var existing := GetRoute(route.routeId);
      if existing != null {
        return false;
      }
      if count >= MAX_ROUTES {
        return false;
      }
      assert forall i :: 0 <= i < count ==> routes[i].routeId != route.routeId;
      Append(route);
      return true;
    }

    method Append(route: Route)
      requires Valid() && route.Valid() && count < MAX_ROUTES
      requires forall i :: 0 <= i < count ==> routes[i].routeId != route.routeId
      requires forall i :: 0 <= i < MAX_ROUTES ==> routes[i] != route && routes[i].commands != route.commands
      modifies this`count, routes[count], routes[count].commands
      ensures Valid() && count == old(count) + 1
      ensures routes[old(count)].routeId == route.routeId && routes[old(count)].Commands() == route.Commands()
    {
      routes[count].Assign(route);
      count := count + 1;
    }

    method ActivateRoute(routeId: int) returns (result: RouteActivationResult)
      requires Valid() && turnoutService.collection.Valid()
      modifies turnoutService.collection.turnouts
      ensures turnoutService.collection.Valid()
      ensures var table, i := old(turnoutService.collection.Table()), old(RouteIndex(routeId, 0));
              if i == count
              then result == RouteNotFound && turnoutService.collection.Table() == table
              else Outcome(table, old(routes[i].Commands()), turnoutService.collection.Table(), result)
    {
      var route := GetRoute(routeId);
      if route == null {
        return RouteNotFound;
      }
      ghost var table, index, commands := turnoutService.collection.Table(), RouteIndex(routeId, 0), route.Commands();
      result := Activate(turnoutService, route);
      assert Outcome(table, commands, turnoutService.collection.Table(), result);
    }
  }

  /** The part of activateRoute that follows when the route was found. */
  method Activate(service: TurnoutService, route: Route) returns (result: RouteActivationResult)
    requires route.commandCount <= route.commands.Length && service.collection.Valid()
    modifies service.collection.turnouts
    ensures service.collection.Valid()
    ensures Outcome(old(service.collection.Table()), old(route.Commands()), service.collection.Table(), result)
  {
    ghost var table, commands := service.collection.Table(), route.Commands();
    if route.commandCount == 0 {
      return Activated;
    }
    var hadMissingTurnout := false;
    for i := 0 to route.commandCount
      invariant service.collection.Valid() && route.Commands() == commands
      invariant Underway(table, commands, i, service.collection.Table(), hadMissingTurnout)
    {
      var command := route.commands[i];
      ghost var before := service.collection.Table();
      var outcome := Execute(service, command);
      OneCommand(table, commands, i, before, hadMissingTurnout, service.collection.Table());
      if outcome == NotFound {
        hadMissingTurnout := true;
        continue;
      }
      if outcome == Locked {
        return TurnoutLocked;
      }
      if outcome == Disabled {
        return TurnoutDisabled;
      }
    }
    AllCommands(table, commands, service.collection.Table(), hadMissingTurnout);
    if hadMissingTurnout {
      return PartialSuccess;
    }
    return Activated;
  }

  method Execute(service: TurnoutService, command: TurnoutCommand) returns (outcome: TurnoutServiceResult)
    requires service.collection.Valid()
    modifies service.collection.turnouts
    ensures service.collection.Valid()
    ensures outcome == Validated(old(service.collection.Table()), command.address)
    ensures service.collection.Table()
            == if outcome == Success
               then WithPosition(old(service.collection.Table()), command.address, command.position)
               else old(service.collection.Table())
  {
    if command.position == Closed {
      outcome := service.ThrowStraight(command.address);
    } else {
      outcome := service.ThrowDiverging(command.address);
    }
  }

  // -------------------------------------------------------------- properties

  /** Positions do not matter to lookups and validation. */
  lemma {:induction false} LookupIgnoresPositions(table: seq<TurnoutState>, other: seq<TurnoutState>, address: int)
    requires |table| == |other|
    requires forall i :: 0 <= i < |table| ==> other[i] == table[i].(position := other[i].position)
    ensures IndexOf(other, address) == IndexOf(table, address)
    ensures Validated(other, address) == Validated(table, address)
    decreases |table|
  {
    if table != [] && table[0].address != address {
      LookupIgnoresPositions(table[1..], other[1..], address);
    }
  }

  /** Carrying out one more command, if its turnout is there and free. */
  lemma PositionedStep(table: seq<TurnoutState>, commands: seq<TurnoutCommand>, n: nat)
    requires n < |commands| && UniqueAddresses(table)
    ensures var c := commands[n];
            var before := Positioned(table, commands, n);
            && Validated(before, c.address) == Validated(table, c.address)
            && (Validated(table, c.address) == NotFound ==> Positioned(table, commands, n + 1) == before)
            && (Validated(table, c.address) == Success ==>
                  Positioned(table, commands, n + 1) == WithPosition(before, c.address, c.position))
  {
    var c := commands[n];
    LookupIgnoresPositions(table, Positioned(table, commands, n), c.address);
  }

  /** One command of an activation, by what validation says of its turnout. */
  lemma OneCommand(table: seq<TurnoutState>, commands: seq<TurnoutCommand>, i: nat, now: seq<TurnoutState>,
                   missing: bool, later: seq<TurnoutState>)
    requires i < |commands| && Underway(table, commands, i, now, missing)
    requires later == if Validated(now, commands[i].address) == Success
                      then WithPosition(now, commands[i].address, commands[i].position) else now
    ensures match Validated(now, commands[i].address) {
              case Success => Underway(table, commands, i + 1, later, missing)
              case NotFound => Underway(table, commands, i + 1, later, true)
              case Locked => Outcome(table, commands, later, TurnoutLocked)
              case Disabled => Outcome(table, commands, later, TurnoutDisabled)
            }
  {
    PositionedStep(table, commands, i);
  }

  lemma AllCommands(table: seq<TurnoutState>, commands: seq<TurnoutCommand>, now: seq<TurnoutState>, missing: bool)
    requires Underway(table, commands, |commands|, now, missing)
    ensures Outcome(table, commands, now, if missing then PartialSuccess else Activated)
  {}

  lemma {:induction false} PositionOfNamed(t: TurnoutState, commands: seq<TurnoutCommand>, n: nat, j: nat)
    requires j < n <= |commands| && DistinctTurnouts(commands) && commands[j].address == t.address
    ensures PositionAfter(t, commands, n) == commands[j].position
    decreases n
  {
    if j < n - 1 { PositionOfNamed(t, commands, n - 1, j); }
  }

  lemma {:induction false} PositionOfOthers(t: TurnoutState, commands: seq<TurnoutCommand>, n: nat)
    requires n <= |commands| && forall j :: 0 <= j < n ==> commands[j].address != t.address
    ensures PositionAfter(t, commands, n) == t.position
    decreases n
  {
    if n > 0 { PositionOfOthers(t, commands, n - 1); }
  }

  /** Activation is exact: turnouts named before the first blocked command hold
      their commanded positions; every other entry is as it was. */
  lemma ActivationExact(table: seq<TurnoutState>, commands: seq<TurnoutCommand>, i: nat)
    requires UniqueAddresses(table) && DistinctTurnouts(commands) && i < |table|
    ensures var k := FirstBlocked(table, commands, 0);
            var after := TableAfter(table, commands);
            && |after| == |table|
            && (forall j :: 0 <= j < k && commands[j].address == table[i].address ==>
                  after[i] == table[i].(position := commands[j].position))
            && ((forall j :: 0 <= j < k ==> commands[j].address != table[i].address) ==> after[i] == table[i])
  {
    var k := FirstBlocked(table, commands, 0);
    forall j | 0 <= j < k && commands[j].address == table[i].address
      ensures PositionAfter(table[i], commands, k) == commands[j].position
    {
      PositionOfNamed(table[i], commands, k, j);
    }
    if forall j :: 0 <= j < k ==> commands[j].address != table[i].address {
      PositionOfOthers(table[i], commands, k);
    }
  }

  lemma {:induction false} SameFirstBlocked(table: seq<TurnoutState>, other: seq<TurnoutState>,
                                            commands: seq<TurnoutCommand>, n: nat)
    requires n <= |commands|
    requires forall i :: 0 <= i < |commands| ==>
               Validated(other, commands[i].address) == Validated(table, commands[i].address)
    ensures FirstBlocked(other, commands, n) == FirstBlocked(table, commands, n)
    decreases |commands| - n
  {
    if n < |commands| { SameFirstBlocked(table, other, commands, n + 1); }
  }

  lemma {:induction false} PositionSettles(t: TurnoutState, commands: seq<TurnoutCommand>, n: nat, m: nat)
    requires n <= m <= |commands|
    ensures PositionAfter(t.(position := PositionAfter(t, commands, m)), commands, n)
            == if exists j :: 0 <= j < n && commands[j].address == t.address then PositionAfter(t, commands, n)
               else PositionAfter(t, commands, m)
    decreases n
  {
    if n > 0 { PositionSettles(t, commands, n - 1, m); }
  }

  /** A second activation changes nothing and gives the same answer. */
  lemma ActivationIdempotent(table: seq<TurnoutState>, commands: seq<TurnoutCommand>)
    requires UniqueAddresses(table)
    ensures TableAfter(TableAfter(table, commands), commands) == TableAfter(table, commands)
    ensures ResultOf(TableAfter(table, commands), commands) == ResultOf(table, commands)
  {
    var k := FirstBlocked(table, commands, 0);
    var after := TableAfter(table, commands);
    forall i | 0 <= i < |commands|
      ensures Validated(after, commands[i].address) == Validated(table, commands[i].address)
    {
      LookupIgnoresPositions(table, after, commands[i].address);
    }
    SameFirstBlocked(table, after, commands, 0);
    assert SomeMissing(after, commands, k) == SomeMissing(table, commands, k);
    forall i | 0 <= i < |table|
      ensures PositionAfter(after[i], commands, k) == after[i].position
    {
      PositionSettles(table[i], commands, k, k);
    }
    assert TableAfter(after, commands) == after;
  }
}
