/** The values GameStatePanel.tsx derives from its props: the near-end
    warning, the location line, the inventory, the optional sections and the
    recent path. */
module GameStatePanel {

  import opened Wrappers
  import opened Text
  import opened Api

  /** `turnCount >= maxTurns * 0.8`, in integers. */
  function IsNearingEnd(turnCount: int, maxTurns: int): (r: bool)
    ensures r <==> (turnCount as real) >= (maxTurns as real) * 0.8
  {
    5 * turnCount >= 4 * maxTurns
  }

  /** Once the warning is shown, it stays shown as turns go by. */
  lemma NearingEndStays(t: int, t': int, maxTurns: int)
    requires IsNearingEnd(t, maxTurns) && t <= t'
    ensures IsNearingEnd(t', maxTurns)
  {
  }

  /** The last turn and every turn past it are near the end, for any
      non-negative turn limit. */
  lemma FinalTurnsNearingEnd(t: int, maxTurns: int)
    requires 0 <= maxTurns <= t
    ensures IsNearingEnd(t, maxTurns)
  {
  }

  const UnknownLocation: string := "Unknown"

  /** `currentLocation || 'Unknown'`. */
  function DisplayLocation(currentLocation: string): (r: string)
    ensures r != ""
    ensures currentLocation != "" ==> r == currentLocation
    ensures currentLocation == "" ==> r == UnknownLocation
  {
    if currentLocation != "" then currentLocation else UnknownLocation
  }

  const RecentCount: nat := 5
  const PathSeparator: string := " \U{2192} "

  function Min(a: nat, b: nat): nat {
    if a < b then a else b
  }

  /** `visited.slice(-5)`: the last five visited locations (all of them when
      there are fewer), in their stored order. */
  function RecentLocations(visited: seq<string>): (r: seq<string>)
    ensures |r| == Min(RecentCount, |visited|)
    ensures forall i :: 0 <= i < |r| ==> r[i] == visited[|visited| - |r| + i]
  {
    visited[|visited| - Min(RecentCount, |visited|)..]
  }

  /** Visiting one more location adds it at the end of the recent locations;
      once there are five, the oldest of them drops out. */
  lemma RecentLocationsSlide(visited: seq<string>, x: string)
    ensures RecentLocations(visited + [x])
            == (if |visited| < RecentCount then RecentLocations(visited)
                else RecentLocations(visited)[1..]) + [x]
  {
    var v := visited + [x];
    var a := RecentLocations(v);
    var b := (if |visited| < RecentCount then RecentLocations(visited)
              else RecentLocations(visited)[1..]) + [x];
    assert |a| == |b|;
    forall i | 0 <= i < |a| ensures a[i] == b[i] {
      if i < |a| - 1 {
        assert a[i] == v[|v| - |a| + i] == visited[|v| - |a| + i];
      }
    }
  }

  /** The recent path line: the recent locations joined by an arrow. */
  function RecentPath(visited: seq<string>): (r: string)
    ensures visited == [] ==> r == ""
    ensures visited != [] ==> StartsWith(r, visited[|visited| - |RecentLocations(visited)|])
  {
    Join(RecentLocations(visited), PathSeparator)
  }

  /** The path grows by an arrow and the new location, losing its oldest
      entry once five are shown. */
  lemma RecentPathSlide(visited: seq<string>, x: string)
    ensures |visited| == 0 ==> RecentPath(visited + [x]) == x
    ensures 0 < |visited| < RecentCount ==>
              RecentPath(visited + [x]) == RecentPath(visited) + PathSeparator + x
    ensures RecentCount < |visited| + 1 ==>
              RecentPath(visited + [x]) == Join(RecentLocations(visited)[1..], PathSeparator) + PathSeparator + x
  {
    RecentLocationsSlide(visited, x);
    if |visited| == 0 {
      assert RecentLocations(visited + [x]) == [x];
    } else if |visited| < RecentCount {
      JoinSnoc(RecentLocations(visited), x, PathSeparator);
    } else {
      JoinSnoc(RecentLocations(visited)[1..], x, PathSeparator);
    }
  }

  /** The inventory box: the items, or the word Empty. */
  datatype Inventory = Listed(items: seq<string>) | EmptyInventory

  /** Everything the panel shows. A section that is not rendered is `None`. */
  datatype PanelView = PanelView(
    turnCount: int,
    maxTurns: int,
    endingSoon: bool,
    location: string,
    inventory: Inventory,
    npcs: Option<seq<string>>,
    discoveries: Option<seq<string>>,
    recentPath: Option<string>)

  /** GameStatePanel for its four props. */
  function Panel(gameState: GameState, currentLocation: string, turnCount: int, maxTurns: int): (v: PanelView)
    ensures v.endingSoon == IsNearingEnd(turnCount, maxTurns)
    ensures v.location == DisplayLocation(currentLocation)
    ensures v.inventory == EmptyInventory <==> gameState.items == []
    ensures v.inventory.Listed? ==> v.inventory.items == gameState.items
    ensures v.npcs.Some? <==> gameState.metNpcs != []
    ensures v.npcs.Some? ==> v.npcs.value == gameState.metNpcs
    ensures v.discoveries.Some? <==> gameState.discoveries != []
    ensures v.discoveries.Some? ==> v.discoveries.value == gameState.discoveries
    ensures v.recentPath.Some? <==> gameState.visitedLocations != []
    ensures v.recentPath.Some? ==> v.recentPath.value == RecentPath(gameState.visitedLocations)
  {
    PanelView(
      turnCount, maxTurns, IsNearingEnd(turnCount, maxTurns),
      DisplayLocation(currentLocation),
      if |gameState.items| > 0 then Listed(gameState.items) else EmptyInventory,
      if |gameState.metNpcs| > 0 then Some(gameState.metNpcs) else None,
      if |gameState.discoveries| > 0 then Some(gameState.discoveries) else None,
      if |gameState.visitedLocations| > 0 then Some(RecentPath(gameState.visitedLocations)) else None)
  }


  /** A shown path names the newest location last. */
  lemma PathEndsWithLatest(visited: seq<string>)
    requires visited != []
    ensures EndsWith(RecentPath(visited), visited[|visited| - 1])
  {
    var init := visited[..|visited| - 1];
    assert visited == init + [visited[|visited| - 1]];
    RecentPathSlide(init, visited[|visited| - 1]);
    if |init| == 0 {
      assert RecentPath(visited) == [] + visited[|visited| - 1];
    } else if |init| < RecentCount {
      assert RecentPath(visited) == (RecentPath(init) + PathSeparator) + visited[|visited| - 1];
    } else {
      assert RecentPath(visited)
             == (Join(RecentLocations(init)[1..], PathSeparator) + PathSeparator) + visited[|visited| - 1];
    }
  }
}
