/** A subway line: a name, a colour and the list of its sections, which `addLineSection` and
    `removeLineSection` edit in place and `getStations` walks from the upstream terminus. */
module Lines {
  import opened Errors
  import opened Distances
  import opened Stations
  import opened Sections
  import opened Chains
  import opened SectionProperties

  class Line {
    var name: string
    var color: string
    /** The sections in list order, which is the order `getSections()` returns. */
    var sections: seq<Section>
    /** The stations of the line from the upstream to the downstream terminus. */
    ghost var Path: seq<Station>

    ghost predicate Valid()
      reads this
    {
      Chain(sections, Path)
    }

    /** A new line has one section, from `up` to `down`. */
    constructor (name: string, color: string, up: Station, down: Station, distance: Distance)
      requires up != down
      ensures Valid()
      ensures this.name == name && this.color == color
      ensures sections == [Section(up, down, distance)] && Path == [up, down]
    {
      this.name := name;
      this.color := color;
      sections := [Section(up, down, distance)];
      Path := [up, down];
      new;
      assert Ends(sections) == [(up, down)];
      assert Legs(Path) == [(up, down)];
    }

    /** The index of the first section leaving `s`, or -1 when no section leaves it. */
    method FindLeaving(s: Station) returns (i: int)
      ensures -1 <= i < |sections|
      ensures i < 0 <==> forall m :: 0 <= m < |sections| ==> sections[m].up != s
      ensures 0 <= i ==> sections[i].up == s && forall m :: 0 <= m < i ==> sections[m].up != s
      ensures i == IndexOfUp(sections, s)
    {
      i := 0;
      while i < |sections| && sections[i].up != s
        invariant 0 <= i <= |sections|
        invariant forall m :: 0 <= m < i ==> sections[m].up != s
      {
        i := i + 1;
      }
      if i == |sections| {
        i := -1;
      }
    }

    /** The index of the first section arriving at `s`, or -1 when no section arrives there. */
    method FindArriving(s: Station) returns (j: int)
      ensures -1 <= j < |sections|
      ensures j < 0 <==> forall m :: 0 <= m < |sections| ==> sections[m].down != s
      ensures 0 <= j ==> sections[j].down == s && forall m :: 0 <= m < j ==> sections[m].down != s
      ensures j == IndexOfDown(sections, s)
    {
      j := 0;
      while j < |sections| && sections[j].down != s
        invariant 0 <= j <= |sections|
        invariant forall m :: 0 <= m < j ==> sections[m].down != s
      {
        j := j + 1;
      }
      if j == |sections| {
        j := -1;
      }
    }

    /** The section list `addLineSection(up, down, distance)` leaves, or the error it throws:
        the split section is rewritten at its own index and the new section is appended. */
    method SectionsAfterAdding(up: Station, down: Station, distance: int) returns (r: Result<seq<Section>>)
      ensures r == AddSection(sections, up, down, distance)
    {
      var current := sections;
      var upLeaves := FindLeaving(up);
      var upArrives := FindArriving(up);
      var downLeaves := FindLeaving(down);
      var downArrives := FindArriving(down);
      var upRegistered, downRegistered := 0 <= upLeaves || 0 <= upArrives, 0 <= downLeaves || 0 <= downArrives;
      if upRegistered && downRegistered {
        return Err(CannotUpdateSection(BothRegistered));
      }
      if !upRegistered && !downRegistered {
        return Err(CannotUpdateSection(NeitherRegistered));
      }
      var d := New(distance);
      if d.Err? {
        return Err(d.error);
      }
      if 0 <= upLeaves {
        var split := current[upLeaves];
        var check := ValidateLargerThan(split.distance, distance);
        if check.Fail? {
          return Err(check.error);
        }
        current := current[upLeaves := Section(down, split.down, Minus(split.distance, distance).value)];
      } else if 0 <= downArrives {
        var split := current[downArrives];
        var check := ValidateLargerThan(split.distance, distance);
        if check.Fail? {
          return Err(check.error);
        }
        current := current[downArrives := Section(split.up, up, Minus(split.distance, distance).value)];
      }
      r := Ok(current + [Section(up, down, d.value)]);
    }

    /** `addLineSection(up, down, distance)`: on success the sections are those `AddSection`
        gives and the new station enters the path next to the registered one; a refused request
        reports `AddSection`'s error and leaves the sections and the path as they were. The name
        and the colour lie outside the frame. */
    method AddLineSection(up: Station, down: Station, distance: int) returns (r: Outcome)
      requires Valid()
      modifies this`sections, this`Path
      ensures Valid()
      ensures var a := AddSection(old(sections), up, down, distance);
              (a.Ok? ==> r == Pass && sections == a.value && Path == AddedPath(old(Path), up, down)) &&
              (a.Err? ==> r == Fail(a.error) && sections == old(sections) && Path == old(Path))
    {
      var added := SectionsAfterAdding(up, down, distance);
      if added.Err? {
        return Fail(added.error);
      }
      AddKeepsChain(sections, Path, up, down, distance);
      sections, Path := added.value, AddedPath(Path, up, down);
      r := Pass;
    }

    /** The section list `removeLineSection(station)` leaves, or the error it throws: a terminus
        section is taken out, or the two sections around an interior station are taken out and
        the section joining their outer stations is appended. */
    method SectionsAfterRemoving(station: Station) returns (r: Result<seq<Section>>)
      ensures r == RemoveSection(sections, station)
    {
      var current := sections;
      var leaving := FindLeaving(station);
      var arriving := FindArriving(station);
      if leaving < 0 && arriving < 0 {
        return Err(CannotDelete(StationNotOnLine));
      }
      if |current| == 1 {
        return Err(CannotDelete(OnlyOneSection));
      }
      if arriving < 0 {
        current := current[..leaving] + current[leaving + 1..];
      } else if leaving < 0 {
        current := current[..arriving] + current[arriving + 1..];
      } else {
        current := WithoutBoth(current, leaving, arriving) + [Merged(current[arriving], current[leaving])];
      }
      r := Ok(current);
    }

    /** `removeLineSection(station)`: on success the sections are those `RemoveSection` gives and
        the station leaves the path; a refused request reports `RemoveSection`'s error and leaves
        the sections and the path as they were. The name and the colour lie outside the frame. */
    method RemoveLineSection(station: Station) returns (r: Outcome)
      requires Valid()
      modifies this`sections, this`Path
      ensures Valid()
      ensures var a := RemoveSection(old(sections), station);
              (a.Ok? ==> r == Pass && sections == a.value && Path == RemovedPath(old(Path), station)) &&
              (a.Err? ==> r == Fail(a.error) && sections == old(sections) && Path == old(Path))
    {
      var removed := SectionsAfterRemoving(station);
      if removed.Err? {
        return Fail(removed.error);
      }
      ghost var shorter := RemovedPath(Path, station);
      RemoveKeepsChain(sections, Path, station);
      sections, Path := removed.value, shorter;
      r := Pass;
    }

    /** The index of the first section whose upstation no section arrives at: the section leaving
        the upstream terminus. */
    method FindUpTerminus() returns (t: int)
      requires Valid()
      ensures 0 <= t < |sections| && sections[t].up == Path[0]
    {
      ghost var first := SectionOf(sections, Path, 0);
      Incoming(sections, Path, Path[0]);
      assert IndexOfDown(sections, sections[first].up) < 0;
      t := 0;
      var arriving := FindArriving(sections[0].up);
      while 0 <= arriving
        invariant 0 <= t <= first
        invariant arriving == IndexOfDown(sections, sections[t].up)
        decreases first - t
      {
        assert t != first;
        t := t + 1;
        arriving := FindArriving(sections[t].up);
      }
      ghost var k := LegOf(sections, Path, t);
      Incoming(sections, Path, sections[t].up);
    }

    /** `getStations()`: the stations from the upstream terminus, following the section that
        leaves each station, to the downstream terminus. */
    method GetStations() returns (stations: seq<Station>)
      requires Valid()
      ensures stations == Path
      ensures stations == StationsOf(sections) && |stations| == |sections| + 1
    {
      var t := FindUpTerminus();
      var current := sections[t].up;
      stations := [current];
      var leaving := FindLeaving(current);
      ghost var n := 0;
      while 0 <= leaving
        invariant 0 <= n < |Path| && |stations| == n + 1
        invariant stations == Path[..n + 1] && current == Path[n]
        invariant leaving == IndexOfUp(sections, current)
        decreases |Path| - n
      {
        StepAlong(sections, Path, n);
        current := sections[leaving].down;
        assert Path[..n + 2] == Path[..n + 1] + [Path[n + 1]];
        stations := stations + [current];
        n := n + 1;
        leaving := FindLeaving(current);
      }
      StepAlong(sections, Path, n);
      assert stations == Path;
      StationsOfChain(sections, Path);
    }
  }
}
