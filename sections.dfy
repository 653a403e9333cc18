/** A section joins an upstream and a downstream station over a distance. The functions here are the
    behaviour of a line's section list: searching it, adding a section, removing a station, and
    walking it in up-to-down order. The class `Lines.Line` edits its list as these functions say. */
module Sections {
  import opened Errors
  import opened Distances
  import opened Stations

  datatype Section = Section(up: Station, down: Station, distance: Distance)

  /** Index of the first section that leaves `s` (has `s` as its upstation), or -1. */
  function IndexOfUp(sections: seq<Section>, s: Station): (i: int)
    ensures -1 <= i < |sections|
    ensures i < 0 <==> forall j :: 0 <= j < |sections| ==> sections[j].up != s
    ensures 0 <= i ==> sections[i].up == s && forall j :: 0 <= j < i ==> sections[j].up != s
  {
    if |sections| == 0 then -1
    else if sections[0].up == s then 0
    else
      var i := IndexOfUp(sections[1..], s);
      if i < 0 then -1 else i + 1
  }

  /** Index of the first section that arrives at `s` (has `s` as its downstation), or -1. */
  function IndexOfDown(sections: seq<Section>, s: Station): (i: int)
    ensures -1 <= i < |sections|
    ensures i < 0 <==> forall j :: 0 <= j < |sections| ==> sections[j].down != s
    ensures 0 <= i ==> sections[i].down == s && forall j :: 0 <= j < i ==> sections[j].down != s
  {
    if |sections| == 0 then -1
    else if sections[0].down == s then 0
    else
      var i := IndexOfDown(sections[1..], s);
      if i < 0 then -1 else i + 1
  }

  /** A station is on the line when some section starts or ends there. */
  function Registered(sections: seq<Section>, s: Station): (b: bool)
    ensures b <==> exists j :: 0 <= j < |sections| && (sections[j].up == s || sections[j].down == s)
  {
    IndexOfUp(sections, s) >= 0 || IndexOfDown(sections, s) >= 0
  }

  /** The list without its `i`-th element; the others keep their order. */
  function Without(sections: seq<Section>, i: int): (r: seq<Section>)
    requires 0 <= i < |sections|
  {
    sections[..i] + sections[i + 1..]
  }

  /** The list without its `i`-th and `j`-th elements; the others keep their order. */
  function WithoutBoth(sections: seq<Section>, i: int, j: int): (r: seq<Section>)
    requires 0 <= i < |sections| && 0 <= j < |sections|
  {
    if i < j then Without(Without(sections, j), i)
    else if j < i then Without(Without(sections, i), j)
    else Without(sections, i)
  }

  /** `addLineSection(up, down, distance)` on the section list `sections`.
      Refused when both or neither of the stations are on the line, when the distance is not
      positive, and when the leg to be split is not strictly longer than the new one. A leg is split
      when `up` starts one (it is rewritten in place to start at `down`) or else when `down` ends one
      (rewritten in place to end at `up`); otherwise the line is extended at a terminus. In every
      accepted case the new section is appended at the end of the list. */
  function AddSection(sections: seq<Section>, up: Station, down: Station, distance: int): (r: Result<seq<Section>>)
    ensures r.Ok? ==> |r.value| == |sections| + 1 && r.value[|sections|].up == up && r.value[|sections|].down == down
    ensures r.Ok? ==> r.value[|sections|].distance as int == distance
    ensures r.Ok? ==> forall j :: 0 <= j < |sections| && j != IndexOfUp(sections, up) && j != IndexOfDown(sections, down) ==>
                        r.value[j] == sections[j]
  {
    var upRegistered, downRegistered := Registered(sections, up), Registered(sections, down);
    if upRegistered && downRegistered then Err(CannotUpdateSection(BothRegistered))
    else if !upRegistered && !downRegistered then Err(CannotUpdateSection(NeitherRegistered))
    else match New(distance)
      case Err(e) => Err(e)
      case Ok(d) =>
        var i, j := IndexOfUp(sections, up), IndexOfDown(sections, down);
        if 0 <= i then
          var split := sections[i];
          match ValidateLargerThan(split.distance, distance)
          case Fail(e) => Err(e)
          case Pass => Ok(sections[i := Section(down, split.down, Minus(split.distance, distance).value)] + [Section(up, down, d)])
        else if 0 <= j then
          var split := sections[j];
          match ValidateLargerThan(split.distance, distance)
          case Fail(e) => Err(e)
          case Pass => Ok(sections[j := Section(split.up, up, Minus(split.distance, distance).value)] + [Section(up, down, d)])
        else
          Ok(sections + [Section(up, down, d)])
  }

  /** The section that replaces the two around an interior station: it starts where `into`
      starts, ends where `outOf` ends, and is as long as both together. */
  function Merged(into: Section, outOf: Section): (r: Section)
    ensures r.up == into.up && r.down == outOf.down
    ensures r.distance as int == into.distance as int + outOf.distance as int
  {
    Section(into.up, outOf.down, Plus(into.distance, outOf.distance as int).value)
  }

  /** `removeLineSection(station)` on the section list `sections`.
      Refused when the station is not on the line, and then when only one section is left. A terminus
      loses its one section; an interior station's two sections are replaced by one, appended at the
      end, that joins their outer stations over the sum of their distances. */
  function RemoveSection(sections: seq<Section>, station: Station): (r: Result<seq<Section>>)
    ensures r.Ok? ==> 2 <= |sections|
  {
    if !Registered(sections, station) then Err(CannotDelete(StationNotOnLine))
    else if |sections| == 1 then Err(CannotDelete(OnlyOneSection))
    else
      var i, j := IndexOfUp(sections, station), IndexOfDown(sections, station);
      if j < 0 then Ok(Without(sections, i))
      else if i < 0 then Ok(Without(sections, j))
      else
        Ok(WithoutBoth(sections, i, j) + [Merged(sections[j], sections[i])])
  }

  /** Index of the first section, from `t` on, whose upstation no section arrives at, or -1. */
  function UpTerminusFrom(sections: seq<Section>, t: nat): (r: int)
    requires t <= |sections|
    ensures r == -1 || t <= r < |sections|
    ensures 0 <= r ==> IndexOfDown(sections, sections[r].up) < 0
    decreases |sections| - t
  {
    if t == |sections| then -1
    else if IndexOfDown(sections, sections[t].up) < 0 then t
    else UpTerminusFrom(sections, t + 1)
  }

  /** The search finds a section whenever one at or after `t` starts where no section arrives. */
  lemma {:induction false} UpTerminusFound(sections: seq<Section>, t: nat, f: int)
    requires t <= f < |sections| && IndexOfDown(sections, sections[f].up) < 0
    ensures 0 <= UpTerminusFrom(sections, t) <= f
    decreases f - t
  {
    if t < f && IndexOfDown(sections, sections[t].up) >= 0 {
      UpTerminusFound(sections, t + 1, f);
    }
  }

  /** The stations met by following sections from `s`, for at most `steps` sections. */
  function WalkFrom(sections: seq<Section>, s: Station, steps: nat): (r: seq<Station>)
    ensures 1 <= |r| <= steps + 1 && r[0] == s
    decreases steps
  {
    var i := IndexOfUp(sections, s);
    if steps == 0 || i < 0 then [s] else [s] + WalkFrom(sections, sections[i].down, steps - 1)
  }

  /** Each station of a walk but the last is left by a section (the first one found) that arrives
      at the next station, and a walk that stops before its bound stops where no section leaves. */
  lemma {:induction false} WalkFollows(sections: seq<Section>, s: Station, steps: nat)
    ensures var r := WalkFrom(sections, s, steps);
            forall m :: 0 <= m < |r| - 1 ==>
              0 <= IndexOfUp(sections, r[m]) && sections[IndexOfUp(sections, r[m])].down == r[m + 1]
    ensures var r := WalkFrom(sections, s, steps);
            |r| <= steps ==> IndexOfUp(sections, r[|r| - 1]) < 0
    decreases steps
  {
    var i := IndexOfUp(sections, s);
    if steps != 0 && 0 <= i {
      var rest := WalkFrom(sections, sections[i].down, steps - 1);
      WalkFollows(sections, sections[i].down, steps - 1);
      var r := [s] + rest;
      assert WalkFrom(sections, s, steps) == r;
      forall m | 0 <= m < |r| - 1
        ensures 0 <= IndexOfUp(sections, r[m]) && sections[IndexOfUp(sections, r[m])].down == r[m + 1]
      {
        if m == 0 {
          assert r[0] == s && r[1] == rest[0];
        } else {
          assert r[m] == rest[m - 1] && r[m + 1] == rest[m];
        }
      }
      assert r[|r| - 1] == rest[|rest| - 1];
    }
  }

  /** `getStations()`: start at the upstream terminus and follow the sections downstream. A line
      has as many sections as legs, which bounds the walk. */
  function StationsOf(sections: seq<Section>): (r: seq<Station>)
    ensures |r| <= |sections| + 1
    ensures 0 < |r| ==> IndexOfDown(sections, r[0]) < 0
    ensures 0 < |r| <==> exists t :: 0 <= t < |sections| && IndexOfDown(sections, sections[t].up) < 0
  {
    var t := UpTerminusFrom(sections, 0);
    if t < 0 then
      assert forall f :: 0 <= f < |sections| ==> IndexOfDown(sections, sections[f].up) >= 0 by {
        forall f | 0 <= f < |sections| && IndexOfDown(sections, sections[f].up) < 0
          ensures false
        {
          UpTerminusFound(sections, 0, f);
        }
      }
      []
    else WalkFrom(sections, sections[t].up, |sections|)
  }

  /** The length of the whole line: the sum of its sections' distances. */
  function TotalDistance(sections: seq<Section>): int {
    if |sections| == 0 then 0 else sections[0].distance as int + TotalDistance(sections[1..])
  }

  lemma {:induction false} TotalConcat(a: seq<Section>, b: seq<Section>)
    ensures TotalDistance(a + b) == TotalDistance(a) + TotalDistance(b)
  {
    if |a| == 0 {
      assert a + b == b;
    } else {
      assert (a + b)[1..] == a[1..] + b;
      TotalConcat(a[1..], b);
    }
  }

  /** Replacing one section changes the total by the difference of the two distances. */
  lemma {:induction false} TotalUpdate(sections: seq<Section>, i: int, s: Section)
    requires 0 <= i < |sections|
    ensures TotalDistance(sections[i := s]) == TotalDistance(sections) - sections[i].distance as int + s.distance as int
  {
    assert sections == sections[..i] + ([sections[i]] + sections[i + 1..]);
    assert sections[i := s] == sections[..i] + ([s] + sections[i + 1..]);
    TotalConcat(sections[..i], [sections[i]] + sections[i + 1..]);
    TotalConcat(sections[..i], [s] + sections[i + 1..]);
    TotalConcat([sections[i]], sections[i + 1..]);
    TotalConcat([s], sections[i + 1..]);
  }

  /** Dropping one section shortens the total by its distance. */
  lemma {:induction false} TotalWithout(sections: seq<Section>, i: int)
    requires 0 <= i < |sections|
    ensures TotalDistance(Without(sections, i)) == TotalDistance(sections) - sections[i].distance as int
  {
    assert sections == sections[..i] + ([sections[i]] + sections[i + 1..]);
    TotalConcat(sections[..i], [sections[i]] + sections[i + 1..]);
    TotalConcat([sections[i]], sections[i + 1..]);
    TotalConcat(sections[..i], sections[i + 1..]);
    assert TotalDistance([sections[i]]) == sections[i].distance as int;
  }

  /** Appending a section lengthens the total by its distance. */
  lemma {:induction false} TotalAppend(sections: seq<Section>, s: Section)
    ensures TotalDistance(sections + [s]) == TotalDistance(sections) + s.distance as int
  {
    TotalConcat(sections, [s]);
  }
}
