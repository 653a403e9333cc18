/** What adding a section, removing a station and walking the line promise, for every line. */
module SectionProperties {
  import opened Errors
  import opened Distances
  import opened Stations
  import opened Sections
  import opened Chains

  /** On a line where exactly one of `up`, `down` is registered, a section that starts at `up` or
      ends at `down` is the one `addLineSection` splits. */
  lemma {:induction false} SplitTarget(sections: seq<Section>, path: seq<Station>, up: Station, down: Station, t: int)
    requires Chain(sections, path) && (up in path) != (down in path)
    requires 0 <= t < |sections| && (sections[t].up == up || sections[t].down == down)
    ensures t == if 0 <= IndexOfUp(sections, up) then IndexOfUp(sections, up) else IndexOfDown(sections, down)
  {
    var k := LegOf(sections, path, t);
    Outgoing(sections, path, up);
    var i, j := IndexOfUp(sections, up), IndexOfDown(sections, down);
    if sections[t].up == up {
      UniqueUp(sections, path, t, i);
    } else {
      UniqueDown(sections, path, t, j);
    }
  }

  /** The decision table of `addLineSection` on a line whose stations are `path`. */
  lemma {:induction false} AddSectionOutcome(sections: seq<Section>, path: seq<Station>, up: Station, down: Station, distance: int)
    requires Chain(sections, path)
    ensures AddSection(sections, up, down, distance) == Err(CannotUpdateSection(BothRegistered)) <==>
              up in path && down in path
    ensures AddSection(sections, up, down, distance) == Err(CannotUpdateSection(NeitherRegistered)) <==>
              up !in path && down !in path
    ensures AddSection(sections, up, down, distance) == Err(InvalidArgument) <==>
              (up in path) != (down in path) && distance <= 0
    ensures AddSection(sections, up, down, distance) == Err(CannotUpdateSection(DistanceNotShorter)) <==>
              (up in path) != (down in path) && 0 < distance &&
              exists s :: s in sections && (s.up == up || s.down == down) && s.distance as int <= distance
    ensures AddSection(sections, up, down, distance).Ok? <==>
              (up in path) != (down in path) && 0 < distance &&
              forall s :: s in sections && (s.up == up || s.down == down) ==> distance < s.distance as int
  {
    RegisteredOnPath(sections, path, up);
    RegisteredOnPath(sections, path, down);
    var i, j := IndexOfUp(sections, up), IndexOfDown(sections, down);
    if (up in path) != (down in path) && 0 < distance {
      var target := if 0 <= i then i else j;
      forall s | s in sections && (s.up == up || s.down == down)
        ensures 0 <= target && s == sections[target]
      {
        var t :| 0 <= t < |sections| && sections[t] == s;
        SplitTarget(sections, path, up, down, t);
      }
      if 0 <= target {
        assert sections[target] in sections;
      }
    }
  }

  /** The three shapes of an accepted `addLineSection`. */
  lemma {:induction false} AddSectionShape(sections: seq<Section>, up: Station, down: Station, distance: int)
    requires AddSection(sections, up, down, distance).Ok?
    ensures 0 < distance
    ensures Registered(sections, up) != Registered(sections, down)
    ensures var r, i, j := AddSection(sections, up, down, distance).value, IndexOfUp(sections, up), IndexOfDown(sections, down);
            var added := Section(up, down, distance as Distance);
            if 0 <= i then
              distance < sections[i].distance as int &&
              r == sections[i := Section(down, sections[i].down, (sections[i].distance as int - distance) as Distance)] + [added]
            else if 0 <= j then
              distance < sections[j].distance as int &&
              r == sections[j := Section(sections[j].up, up, (sections[j].distance as int - distance) as Distance)] + [added]
            else
              r == sections + [added]
  {
  }

  /** Splitting the leg that leaves a registered `up`. */
  lemma {:induction false} SplitAfter(sections: seq<Section>, path: seq<Station>, up: Station, down: Station, distance: int, i: int)
    requires Chain(sections, path) && up in path && down !in path
    requires 0 <= i < |sections| && sections[i].up == up && 0 < distance < sections[i].distance as int
    ensures var r := sections[i := Section(down, sections[i].down, (sections[i].distance as int - distance) as Distance)] +
                     [Section(up, down, distance as Distance)];
            Chain(r, AddedPath(path, up, down)) && TotalDistance(r) == TotalDistance(sections)
  {
    var split := Section(down, sections[i].down, (sections[i].distance as int - distance) as Distance);
    var added := Section(up, down, distance as Distance);
    assert Chain(sections[i := split] + [added], AddedPath(path, up, down)) by {
      var k := LegOf(sections, path, i);
      IndexOfDistinct(path, k);
      assert AddedPath(path, up, down) == InsertAt(path, k + 1, down);
      SplitLeg(sections, path, i, k, down, split, added);
    }
    TotalUpdate(sections, i, split);
    TotalAppend(sections[i := split], added);
  }

  /** Splitting the leg that arrives at a registered `down`. */
  lemma {:induction false} SplitBefore(sections: seq<Section>, path: seq<Station>, up: Station, down: Station, distance: int, j: int)
    requires Chain(sections, path) && up !in path && down in path
    requires 0 <= j < |sections| && sections[j].down == down && 0 < distance < sections[j].distance as int
    ensures var r := sections[j := Section(sections[j].up, up, (sections[j].distance as int - distance) as Distance)] +
                     [Section(up, down, distance as Distance)];
            Chain(r, AddedPath(path, up, down)) && TotalDistance(r) == TotalDistance(sections)
  {
    var split := Section(sections[j].up, up, (sections[j].distance as int - distance) as Distance);
    var added := Section(up, down, distance as Distance);
    assert Chain(sections[j := split] + [added], AddedPath(path, up, down)) by {
      var k := LegOf(sections, path, j);
      IndexOfDistinct(path, k + 1);
      assert AddedPath(path, up, down) == InsertAt(path, k + 1, up);
      SplitLeg(sections, path, j, k, up, split, added);
    }
    TotalUpdate(sections, j, split);
    TotalAppend(sections[j := split], added);
  }

  /** Extending the line at the terminus where exactly one of `up`, `down` lies. */
  lemma {:induction false} Extend(sections: seq<Section>, path: seq<Station>, up: Station, down: Station, distance: int)
    requires Chain(sections, path) && 0 < distance
    requires (up == path[|path| - 1] && down !in path) || (down == path[0] && up !in path)
    ensures var r := sections + [Section(up, down, distance as Distance)];
            Chain(r, AddedPath(path, up, down)) && TotalDistance(r) == TotalDistance(sections) + distance
  {
    var added := Section(up, down, distance as Distance);
    TotalAppend(sections, added);
    if up == path[|path| - 1] {
      AddedAtEnd(path, up, down);
      AppendLeg(sections, path, added);
    } else {
      AddedAtStart(path, up, down);
      PrependLeg(sections, path, added);
    }
  }

  /** An accepted `addLineSection` keeps the line a chain: the new station enters the path right
      after `up` (when `up` was registered) or right before `down` (when `down` was), so the line
      has one more section and one more station. */
  lemma {:induction false} AddKeepsChain(sections: seq<Section>, path: seq<Station>, up: Station, down: Station, distance: int)
    requires Chain(sections, path)
    requires AddSection(sections, up, down, distance).Ok?
    ensures Chain(AddSection(sections, up, down, distance).value, AddedPath(path, up, down))
  {
    AddSectionShape(sections, up, down, distance);
    RegisteredOnPath(sections, path, up);
    RegisteredOnPath(sections, path, down);
    var r := AddSection(sections, up, down, distance).value;
    var i, j := IndexOfUp(sections, up), IndexOfDown(sections, down);
    var added := Section(up, down, distance as Distance);
    if 0 <= i {
      assert r == sections[i := Section(down, sections[i].down, (sections[i].distance as int - distance) as Distance)] + [added];
      SplitAfter(sections, path, up, down, distance, i);
    } else if 0 <= j {
      assert r == sections[j := Section(sections[j].up, up, (sections[j].distance as int - distance) as Distance)] + [added];
      SplitBefore(sections, path, up, down, distance, j);
    } else {
      assert r == sections + [added];
      Outgoing(sections, path, up);
      Incoming(sections, path, down);
      Extend(sections, path, up, down, distance);
    }
  }

  /** The total distance of the line is unchanged when `addLineSection` splits a leg, and grows by
      the new distance when it extends the line at a terminus. */
  lemma {:induction false} AddSectionTotal(sections: seq<Section>, path: seq<Station>, up: Station, down: Station, distance: int)
    requires Chain(sections, path)
    requires AddSection(sections, up, down, distance).Ok?
    ensures up == path[|path| - 1] || down == path[0] ==>
              TotalDistance(AddSection(sections, up, down, distance).value) == TotalDistance(sections) + distance
    ensures up != path[|path| - 1] && down != path[0] ==>
              TotalDistance(AddSection(sections, up, down, distance).value) == TotalDistance(sections)
  {
    AddSectionShape(sections, up, down, distance);
    AddTotalShape(sections, up, down, distance);
    RegisteredOnPath(sections, path, up);
    RegisteredOnPath(sections, path, down);
    Outgoing(sections, path, up);
    Incoming(sections, path, down);
  }

  /** Splitting a section keeps the total distance; appending without a split adds `distance`. */
  lemma {:induction false} AddTotalShape(sections: seq<Section>, up: Station, down: Station, distance: int)
    requires AddSection(sections, up, down, distance).Ok?
    ensures IndexOfUp(sections, up) < 0 && IndexOfDown(sections, down) < 0 ==>
              TotalDistance(AddSection(sections, up, down, distance).value) == TotalDistance(sections) + distance
    ensures 0 <= IndexOfUp(sections, up) || 0 <= IndexOfDown(sections, down) ==>
              TotalDistance(AddSection(sections, up, down, distance).value) == TotalDistance(sections)
  {
    AddSectionShape(sections, up, down, distance);
    var r := AddSection(sections, up, down, distance).value;
    var i, j := IndexOfUp(sections, up), IndexOfDown(sections, down);
    var added := Section(up, down, distance as Distance);
    if 0 <= i {
      var split := Section(down, sections[i].down, (sections[i].distance as int - distance) as Distance);
      assert r == sections[i := split] + [added];
      TotalUpdate(sections, i, split);
      TotalAppend(sections[i := split], added);
    } else if 0 <= j {
      var split := Section(sections[j].up, up, (sections[j].distance as int - distance) as Distance);
      assert r == sections[j := split] + [added];
      TotalUpdate(sections, j, split);
      TotalAppend(sections[j := split], added);
    } else {
      assert r == sections + [added];
      TotalAppend(sections, added);
    }
  }

  /** The decision table of `removeLineSection` on a line whose stations are `path`: a station
      that is not on the line is refused first, then any station of a one-section line. */
  lemma {:induction false} RemoveSectionOutcome(sections: seq<Section>, path: seq<Station>, station: Station)
    requires Chain(sections, path)
    ensures RemoveSection(sections, station) == Err(CannotDelete(StationNotOnLine)) <==> station !in path
    ensures RemoveSection(sections, station) == Err(CannotDelete(OnlyOneSection)) <==> station in path && |sections| == 1
    ensures RemoveSection(sections, station).Ok? <==> station in path && 2 <= |sections|
  {
    RegisteredOnPath(sections, path, station);
  }

  /** The three shapes of an accepted `removeLineSection`. */
  lemma {:induction false} RemoveSectionShape(sections: seq<Section>, station: Station)
    requires RemoveSection(sections, station).Ok?
    ensures var r, i, j := RemoveSection(sections, station).value, IndexOfUp(sections, station), IndexOfDown(sections, station);
            if j < 0 then 0 <= i && r == Without(sections, i)
            else if i < 0 then r == Without(sections, j)
            else r == WithoutBoth(sections, i, j) + [Merged(sections[j], sections[i])]
  {
    var i, j := IndexOfUp(sections, station), IndexOfDown(sections, station);
    assert Registered(sections, station) && |sections| != 1;
  }

  /** Removing the upstream terminus drops the section leaving it. */
  lemma {:induction false} DropUpTerminus(sections: seq<Section>, path: seq<Station>, i: int)
    requires Chain(sections, path) && 2 <= |sections| && 0 <= i < |sections| && sections[i].up == path[0]
    ensures RemovedPath(path, path[0]) == path[1..]
    ensures Chain(Without(sections, i), path[1..])
    ensures TotalDistance(Without(sections, i)) == TotalDistance(sections) - sections[i].distance as int
  {
    RemovedFirst(path);
    DropFirstLeg(sections, path, i);
    TotalWithout(sections, i);
  }

  /** Removing the downstream terminus drops the section arriving at it. */
  lemma {:induction false} DropDownTerminus(sections: seq<Section>, path: seq<Station>, j: int)
    requires Chain(sections, path) && 2 <= |sections| && 0 <= j < |sections| && sections[j].down == path[|path| - 1]
    ensures Chain(Without(sections, j), RemovedPath(path, path[|path| - 1]))
    ensures TotalDistance(Without(sections, j)) == TotalDistance(sections) - sections[j].distance as int
  {
    RemovedLast(path);
    DropLastLeg(sections, path, j);
    TotalWithout(sections, j);
  }

  /** Removing an interior station merges the section into it (`j`) and the one out of it (`i`)
      into one section, and the path loses that station. */
  lemma {:induction false} MergeAt(sections: seq<Section>, path: seq<Station>, station: Station, i: int, j: int)
    requires Chain(sections, path)
    requires 0 <= i < |sections| && sections[i].up == station
    requires 0 <= j < |sections| && sections[j].down == station
    ensures Chain(WithoutBoth(sections, i, j) + [Merged(sections[j], sections[i])], RemovedPath(path, station))
  {
    var k := LegOf(sections, path, i);
    var kj := LegOf(sections, path, j);
    IndexOfDistinct(path, k);
    assert kj + 1 == k;
    MergeLegs(sections, path, k, i, j, Merged(sections[j], sections[i]));
  }

  /** Merging two sections into one keeps the total distance. */
  lemma {:induction false} MergeKeepsTotal(sections: seq<Section>, i: int, j: int)
    requires 0 <= i < |sections| && 0 <= j < |sections| && i != j
    ensures TotalDistance(WithoutBoth(sections, i, j) + [Merged(sections[j], sections[i])]) == TotalDistance(sections)
  {
    var lo, hi := if i < j then i else j, if i < j then j else i;
    TotalWithout(sections, hi);
    TotalWithout(Without(sections, hi), lo);
    assert Without(sections, hi)[lo] == sections[lo];
    TotalAppend(WithoutBoth(sections, i, j), Merged(sections[j], sections[i]));
  }

  /** An accepted `removeLineSection` keeps the line a chain whose path is the old one without the
      station, with one section fewer. */
  lemma {:induction false} RemoveKeepsChain(sections: seq<Section>, path: seq<Station>, station: Station)
    requires Chain(sections, path)
    requires RemoveSection(sections, station).Ok?
    ensures Chain(RemoveSection(sections, station).value, RemovedPath(path, station))
  {
    RemoveSectionShape(sections, station);
    RemoveSectionOutcome(sections, path, station);
    var i, j := IndexOfUp(sections, station), IndexOfDown(sections, station);
    if j < 0 {
      Incoming(sections, path, station);
      DropUpTerminus(sections, path, i);
    } else if i < 0 {
      Outgoing(sections, path, station);
      DropDownTerminus(sections, path, j);
    } else {
      MergeAt(sections, path, station, i, j);
    }
  }

  /** Merging around an interior station keeps the total distance; removing a terminus shortens it
      by the distance of the section that is dropped. */
  lemma {:induction false} RemoveSectionTotal(sections: seq<Section>, path: seq<Station>, station: Station)
    requires Chain(sections, path)
    requires RemoveSection(sections, station).Ok?
    ensures station == path[0] ==>
              0 <= IndexOfUp(sections, station) &&
              TotalDistance(RemoveSection(sections, station).value) ==
              TotalDistance(sections) - sections[IndexOfUp(sections, station)].distance as int
    ensures station == path[|path| - 1] ==>
              0 <= IndexOfDown(sections, station) &&
              TotalDistance(RemoveSection(sections, station).value) ==
              TotalDistance(sections) - sections[IndexOfDown(sections, station)].distance as int
    ensures station != path[0] && station != path[|path| - 1] ==>
              TotalDistance(RemoveSection(sections, station).value) == TotalDistance(sections)
  {
    RemoveSectionShape(sections, station);
    RemoveSectionOutcome(sections, path, station);
    Outgoing(sections, path, station);
    Incoming(sections, path, station);
    assert path[0] != path[|path| - 1];
    var i, j := IndexOfUp(sections, station), IndexOfDown(sections, station);
    if j < 0 {
      TotalWithout(sections, i);
    } else if i < 0 {
      TotalWithout(sections, j);
    } else {
      MergeKeepsTotal(sections, i, j);
    }
  }

  /** One step of the walk follows the section that leaves the current station. */
  lemma {:induction false} WalkStep(sections: seq<Section>, a: Station, b: Station, steps: nat)
    requires 0 < steps && 0 <= IndexOfUp(sections, a) && sections[IndexOfUp(sections, a)].down == b
    ensures WalkFrom(sections, a, steps) == [a] + WalkFrom(sections, b, steps - 1)
  {
  }

  /** Every station of `path` but the last is left by a section that arrives at the next one. */
  ghost predicate Follows(sections: seq<Section>, path: seq<Station>) {
    forall m :: 0 <= m < |path| - 1 ==>
      0 <= IndexOfUp(sections, path[m]) && sections[IndexOfUp(sections, path[m])].down == path[m + 1]
  }

  /** On a chain, the section found leaving each station leads to the next station of the path. */
  lemma {:induction false} ChainFollows(sections: seq<Section>, path: seq<Station>)
    requires Chain(sections, path)
    ensures Follows(sections, path)
  {
    forall m | 0 <= m < |path| - 1
      ensures 0 <= IndexOfUp(sections, path[m]) && sections[IndexOfUp(sections, path[m])].down == path[m + 1]
    {
      Outgoing(sections, path, path[m]);
      IndexOfDistinct(path, m);
    }
  }

  /** Walking from the `k`-th station of a path the sections follow meets the rest of the path, in
      order. */
  lemma {:induction false} WalkAlong(sections: seq<Section>, path: seq<Station>, k: int, steps: nat)
    requires Follows(sections, path) && 0 <= k < |path| && steps == |path| - 1 - k
    ensures WalkFrom(sections, path[k], steps) == path[k..]
    decreases steps
  {
    if steps == 0 {
      assert path[k..] == [path[k]];
    } else {
      WalkAlong(sections, path, k + 1, steps - 1);
      WalkStep(sections, path[k], path[k + 1], steps);
      assert path[k..] == [path[k]] + path[k + 1..];
    }
  }

  /** On a chain, a section leaves every station but the downstream terminus, and the first one
      found leads to the next station of the path. */
  lemma {:induction false} StepAlong(sections: seq<Section>, path: seq<Station>, n: int)
    requires Chain(sections, path) && 0 <= n < |path|
    ensures 0 <= IndexOfUp(sections, path[n]) <==> n < |path| - 1
    ensures n < |path| - 1 ==> sections[IndexOfUp(sections, path[n])].down == path[n + 1]
  {
    Outgoing(sections, path, path[n]);
    IndexOfDistinct(path, n);
    if n < |path| - 1 {
      assert path[n] != path[|path| - 1];
    }
  }

  /** The walk starts at the upstream terminus of the line. */
  lemma {:induction false} UpTerminusOfChain(sections: seq<Section>, path: seq<Station>)
    requires Chain(sections, path)
    ensures 0 <= UpTerminusFrom(sections, 0) && sections[UpTerminusFrom(sections, 0)].up == path[0]
  {
    var first := SectionOf(sections, path, 0);
    Incoming(sections, path, path[0]);
    assert IndexOfDown(sections, sections[first].up) < 0;
    UpTerminusFound(sections, 0, first);
    var t := UpTerminusFrom(sections, 0);
    var k := LegOf(sections, path, t);
    Incoming(sections, path, sections[t].up);
  }

  /** `getStations()` lists the line's stations from the upstream to the downstream terminus: one
      more station than there are sections. */
  lemma {:induction false} StationsOfChain(sections: seq<Section>, path: seq<Station>)
    requires Chain(sections, path)
    ensures StationsOf(sections) == path
    ensures |StationsOf(sections)| == |sections| + 1
  {
    UpTerminusOfChain(sections, path);
    ChainFollows(sections, path);
    WalkAlong(sections, path, 0, |sections|);
  }

  /** A section appended to a list that does not yet arrive at its down station is the one found
      arriving there. */
  lemma {:induction false} AppendedArrives(sections: seq<Section>, s: Section)
    requires !Registered(sections, s.down)
    ensures IndexOfDown(sections + [s], s.down) == |sections|
  {
    var r := sections + [s];
    assert r[|sections|].down == s.down;
    assert forall m :: 0 <= m < |sections| ==> r[m] == sections[m];
  }

  /** A section appended to a list that does not yet leave its up station is the one found
      leaving there. */
  lemma {:induction false} AppendedLeaves(sections: seq<Section>, s: Section)
    requires !Registered(sections, s.up)
    ensures IndexOfUp(sections + [s], s.up) == |sections|
  {
    var r := sections + [s];
    assert r[|sections|].up == s.up;
    assert forall m :: 0 <= m < |sections| ==> r[m] == sections[m];
  }

  /** The station that an accepted `addLineSection` puts on the line is on the longer path. */
  lemma {:induction false} NewStationAdded(path: seq<Station>, up: Station, down: Station)
    requires (up in path) != (down in path)
    ensures (if up in path then down else up) in AddedPath(path, up, down)
  {
    var k := if up in path then IndexOf(path, up) + 1 else IndexOf(path, down);
    assert AddedPath(path, up, down)[k] == if up in path then down else up;
  }

  /** Adding a station and then removing it again gives back the line's stations in order, though
      not necessarily its section list in the same order. */
  lemma {:induction false} RemoveUndoesAddSection(sections: seq<Section>, path: seq<Station>, up: Station, down: Station, distance: int)
    requires Chain(sections, path)
    requires AddSection(sections, up, down, distance).Ok?
    ensures var added := AddSection(sections, up, down, distance).value;
            var back := RemoveSection(added, if up in path then down else up);
            back.Ok? && Chain(back.value, path)
  {
    var added := AddSection(sections, up, down, distance).value;
    var x := if up in path then down else up;
    AddSectionOutcome(sections, path, up, down, distance);
    AddKeepsChain(sections, path, up, down, distance);
    var longer := AddedPath(path, up, down);
    RemoveUndoesAdd(path, up, down);
    NewStationAdded(path, up, down);
    RemoveSectionOutcome(added, longer, x);
    RemoveKeepsChain(added, longer, x);
  }

  /** Removing the station that only the last section touches drops that section again. */
  lemma {:induction false} UndoAppend(sections: seq<Section>, s: Section, x: Station)
    requires 1 <= |sections| && s.up != s.down
    requires (x == s.down || x == s.up) && !Registered(sections, x)
    ensures RemoveSection(sections + [s], x) == Ok(sections)
  {
    var r := sections + [s];
    assert r[|sections|] == s;
    assert forall m :: 0 <= m < |sections| ==> r[m] == sections[m];
    assert Registered(r, x);
    assert r[..|sections|] == sections && r[|sections| + 1..] == [];
    assert Without(r, |sections|) == sections;
    if x == s.down {
      assert IndexOfDown(r, x) == |sections|;
      assert IndexOfUp(r, x) < 0;
    } else {
      assert IndexOfUp(r, x) == |sections|;
      assert IndexOfDown(r, x) < 0;
    }
  }

  /** Extending the line at a terminus appends one section and a new station that no other
      section touches. */
  lemma {:induction false} ExtendAppends(sections: seq<Section>, path: seq<Station>, up: Station, down: Station, distance: int)
    requires Chain(sections, path)
    requires AddSection(sections, up, down, distance).Ok? && (up == path[|path| - 1] || down == path[0])
    ensures up != down && 1 <= |sections|
    ensures AddSection(sections, up, down, distance).value == sections + [Section(up, down, distance as Distance)]
    ensures !Registered(sections, if up in path then down else up)
  {
    AddSectionOutcome(sections, path, up, down, distance);
    AddSectionShape(sections, up, down, distance);
    RegisteredOnPath(sections, path, up);
    RegisteredOnPath(sections, path, down);
    Outgoing(sections, path, up);
    Incoming(sections, path, down);
  }

  /** The station that `addLineSection` puts inside the line is not a terminus of the longer path. */
  lemma {:induction false} NewStationInterior(path: seq<Station>, up: Station, down: Station)
    requires 2 <= |path| && (up in path) != (down in path)
    requires up != path[|path| - 1] && down != path[0]
    ensures var longer, x := AddedPath(path, up, down), if up in path then down else up;
            x != longer[0] && x != longer[|longer| - 1]
  {
    var longer := AddedPath(path, up, down);
    var k := if up in path then IndexOf(path, up) + 1 else IndexOf(path, down);
    assert 0 < k < |path|;
    assert longer[0] == path[0] && longer[|longer| - 1] == path[|path| - 1];
  }

  /** Splitting the section that leaves `up` and removing the new station `down` again merges the
      two halves back into the very section that was split; it moves to the end of the list. */
  lemma {:induction false} UndoUpSplit(sections: seq<Section>, up: Station, down: Station, distance: int)
    requires AddSection(sections, up, down, distance).Ok? && 0 <= IndexOfUp(sections, up)
    ensures var i := IndexOfUp(sections, up);
            RemoveSection(AddSection(sections, up, down, distance).value, down) == Ok(Without(sections, i) + [sections[i]])
  {
    AddSectionShape(sections, up, down, distance);
    var i, n := IndexOfUp(sections, up), |sections|;
    var added := AddSection(sections, up, down, distance).value;
    var split := Section(down, sections[i].down, (sections[i].distance as int - distance) as Distance);
    assert !Registered(sections, down);
    assert added[i] == split && added[n] == Section(up, down, distance as Distance);
    assert forall m :: 0 <= m < n && m != i ==> added[m] == sections[m];
    assert IndexOfUp(added, down) == i;
    assert IndexOfDown(added, down) == n;
    assert Registered(added, down) && |added| != 1;
    assert Merged(added[n], added[i]) == sections[i];
    assert Without(added, n) == sections[i := split];
    assert Without(sections[i := split], i) == Without(sections, i);
  }

  /** Splitting the section that arrives at `down` and removing the new station `up` again merges
      the two halves back into the very section that was split; it moves to the end of the list. */
  lemma {:induction false} UndoDownSplit(sections: seq<Section>, up: Station, down: Station, distance: int)
    requires AddSection(sections, up, down, distance).Ok?
    requires IndexOfUp(sections, up) < 0 && 0 <= IndexOfDown(sections, down)
    ensures var j := IndexOfDown(sections, down);
            RemoveSection(AddSection(sections, up, down, distance).value, up) == Ok(Without(sections, j) + [sections[j]])
  {
    AddSectionShape(sections, up, down, distance);
    var j, n := IndexOfDown(sections, down), |sections|;
    var added := AddSection(sections, up, down, distance).value;
    var split := Section(sections[j].up, up, (sections[j].distance as int - distance) as Distance);
    assert !Registered(sections, up);
    assert added[j] == split && added[n] == Section(up, down, distance as Distance);
    assert forall m :: 0 <= m < n && m != j ==> added[m] == sections[m];
    assert IndexOfUp(added, up) == n;
    assert IndexOfDown(added, up) == j;
    assert Registered(added, up) && |added| != 1;
    assert Merged(added[j], added[n]) == sections[j];
    assert Without(added, n) == sections[j := split];
    assert Without(sections[j := split], j) == Without(sections, j);
  }

  /** On a line, splitting a section and removing the new station again merges the two halves
      back into the section that was split, now at the end of the list; the total distance is
      kept. */
  lemma {:induction false} UndoSplit(sections: seq<Section>, path: seq<Station>, up: Station, down: Station, distance: int)
    requires Chain(sections, path)
    requires AddSection(sections, up, down, distance).Ok? && up != path[|path| - 1] && down != path[0]
    ensures var added := AddSection(sections, up, down, distance).value;
            var back := RemoveSection(added, if up in path then down else up);
            back.Ok? && TotalDistance(back.value) == TotalDistance(sections)
    ensures var back := RemoveSection(AddSection(sections, up, down, distance).value, if up in path then down else up);
            var i, j := IndexOfUp(sections, up), IndexOfDown(sections, down);
            if 0 <= i then back == Ok(Without(sections, i) + [sections[i]])
            else 0 <= j && back == Ok(Without(sections, j) + [sections[j]])
  {
    var added := AddSection(sections, up, down, distance).value;
    var x := if up in path then down else up;
    AddSectionOutcome(sections, path, up, down, distance);
    Outgoing(sections, path, up);
    Incoming(sections, path, down);
    if 0 <= IndexOfUp(sections, up) {
      UndoUpSplit(sections, up, down, distance);
    } else {
      UndoDownSplit(sections, up, down, distance);
    }
    RemoveUndoesAddSection(sections, path, up, down, distance);
    AddSectionOutcome(sections, path, up, down, distance);
    AddSectionTotal(sections, path, up, down, distance);
    AddKeepsChain(sections, path, up, down, distance);
    NewStationInterior(path, up, down);
    RemoveSectionTotal(added, AddedPath(path, up, down), x);
  }

  /** Adding a station and then removing it again gives back the line's total distance; when the
      addition extended the line at a terminus, it gives back the very same section list. */
  lemma {:induction false} RemoveUndoesAddTotal(sections: seq<Section>, path: seq<Station>, up: Station, down: Station, distance: int)
    requires Chain(sections, path)
    requires AddSection(sections, up, down, distance).Ok?
    ensures var added := AddSection(sections, up, down, distance).value;
            var back := RemoveSection(added, if up in path then down else up);
            back.Ok? && TotalDistance(back.value) == TotalDistance(sections)
    ensures up == path[|path| - 1] || down == path[0] ==>
              RemoveSection(AddSection(sections, up, down, distance).value, if up in path then down else up) == Ok(sections)
  {
    AddSectionOutcome(sections, path, up, down, distance);
    if up == path[|path| - 1] || down == path[0] {
      ExtendAppends(sections, path, up, down, distance);
      UndoAppend(sections, Section(up, down, distance as Distance), if up in path then down else up);
    } else {
      UndoSplit(sections, path, up, down, distance);
    }
  }
}
