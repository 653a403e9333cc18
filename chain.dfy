/** The invariant of a line: its sections, taken in any order, are exactly the legs of one path of
    distinct stations from the upstream terminus to the downstream terminus. */
module Chains {
  import opened Errors
  import opened Distances
  import opened Stations
  import opened Sections

  /** The (upstation, downstation) pair of every section, in list order. */
  ghost function Ends(sections: seq<Section>): (r: seq<(Station, Station)>)
    ensures |r| == |sections|
    ensures forall i {:trigger r[i]} :: 0 <= i < |sections| ==> r[i] == (sections[i].up, sections[i].down)
  {
    if |sections| == 0 then []
    else Ends(sections[..|sections| - 1]) + [(sections[|sections| - 1].up, sections[|sections| - 1].down)]
  }

  /** The pairs of neighbouring stations along a path, from upstream to downstream. */
  ghost function Legs(path: seq<Station>): (r: seq<(Station, Station)>)
    ensures |r| == if |path| == 0 then 0 else |path| - 1
    ensures forall k {:trigger r[k]} :: 0 <= k < |path| - 1 ==> r[k] == (path[k], path[k + 1])
  {
    if |path| <= 1 then []
    else Legs(path[..|path| - 1]) + [(path[|path| - 2], path[|path| - 1])]
  }

  /** `sections` is a line whose stations, in up-to-down order, are `path`: at least one section,
      one more station than sections, no station twice, and the sections are the legs of the path,
      each once, in some order. */
  ghost predicate Chain(sections: seq<Section>, path: seq<Station>) {
    1 <= |sections| && |path| == |sections| + 1 && Distinct(path) &&
    multiset(Ends(sections)) == multiset(Legs(path))
  }

  // ---------------------------------------------------------------------------------------------
  // Multisets of sequences

  lemma {:induction false} MultisetWithout<T>(s: seq<T>, i: int)
    requires 0 <= i < |s|
    ensures multiset(s[..i] + s[i + 1..]) == multiset(s) - multiset{s[i]}
  {
    assert s == s[..i] + [s[i]] + s[i + 1..];
  }

  lemma {:induction false} MultisetWithoutTwo<T>(s: seq<T>, i: int, j: int)
    requires 0 <= i < j < |s|
    ensures var once := s[..j] + s[j + 1..];
            multiset(once[..i] + once[i + 1..]) == multiset(s) - multiset{s[i]} - multiset{s[j]}
  {
    var once := s[..j] + s[j + 1..];
    MultisetWithout(s, j);
    assert once[i] == s[i];
    MultisetWithout(once, i);
  }

  lemma MultisetSwap<T>(m: multiset<T>, a: T, b: T)
    ensures m - multiset{a} - multiset{b} == m - multiset{b} - multiset{a}
  {
    assert forall x :: (m - multiset{a} - multiset{b})[x] == (m - multiset{b} - multiset{a})[x];
  }

  lemma MultisetAddSwap<T>(m: multiset<T>, a: T, b: T)
    ensures m + multiset{a} + multiset{b} == m + multiset{b} + multiset{a}
  {
    assert forall x :: (m + multiset{a} + multiset{b})[x] == (m + multiset{b} + multiset{a})[x];
  }

  lemma {:induction false} MultisetUpdate<T>(s: seq<T>, i: int, v: T)
    requires 0 <= i < |s|
    ensures multiset(s[i := v]) == multiset(s) - multiset{s[i]} + multiset{v}
  {
    assert s == s[..i] + [s[i]] + s[i + 1..];
    assert s[i := v] == s[..i] + [v] + s[i + 1..];
  }

  lemma {:induction false} MultisetJoin<T>(s: seq<T>, k: int, v: T)
    requires 1 <= k < |s|
    ensures multiset(s[..k - 1] + [v] + s[k + 1..]) == multiset(s) - multiset{s[k]} - multiset{s[k - 1]} + multiset{v}
  {
    var pre, post := s[..k - 1], s[k + 1..];
    assert s == pre + [s[k - 1], s[k]] + post;
    assert multiset(s) == multiset(pre) + multiset{s[k - 1], s[k]} + multiset(post);
    assert multiset(pre + [v] + post) == multiset(pre) + multiset{v} + multiset(post);
  }

  lemma {:induction false} MultisetSplit<T>(s: seq<T>, k: int, v: T, w: T)
    requires 0 <= k < |s|
    ensures multiset(s[..k] + [v, w] + s[k + 1..]) == multiset(s) - multiset{s[k]} + multiset{v} + multiset{w}
  {
    var pre, post := s[..k], s[k + 1..];
    assert s == pre + [s[k]] + post;
    assert multiset(s) == multiset(pre) + multiset{s[k]} + multiset(post);
    assert multiset(pre + [v, w] + post) == multiset(pre) + multiset{v, w} + multiset(post);
  }

  // ---------------------------------------------------------------------------------------------
  // How Ends and Legs follow the edits of a section list and of a path

  lemma {:induction false} EndsUpdateAppend(sections: seq<Section>, i: int, a: Section, b: Section)
    requires 0 <= i < |sections|
    ensures Ends(sections[i := a] + [b]) == Ends(sections)[i := (a.up, a.down)] + [(b.up, b.down)]
  {
  }

  lemma {:induction false} EndsSplitCount(sections: seq<Section>, i: int, a: Section, b: Section)
    requires 0 <= i < |sections|
    ensures multiset(Ends(sections[i := a] + [b])) ==
            multiset(Ends(sections)) - multiset{(sections[i].up, sections[i].down)} + multiset{(a.up, a.down)} + multiset{(b.up, b.down)}
  {
    var e := Ends(sections);
    EndsUpdateAppend(sections, i, a, b);
    MultisetUpdate(e, i, (a.up, a.down));
  }

  lemma {:induction false} EndsAppend(sections: seq<Section>, b: Section)
    ensures Ends(sections + [b]) == Ends(sections) + [(b.up, b.down)]
  {
  }

  lemma {:induction false} EndsWithout(sections: seq<Section>, i: int)
    requires 0 <= i < |sections|
    ensures Ends(Without(sections, i)) == Ends(sections)[..i] + Ends(sections)[i + 1..]
  {
  }

  lemma {:induction false} EndsWithoutCount(sections: seq<Section>, i: int)
    requires 0 <= i < |sections|
    ensures multiset(Ends(Without(sections, i))) == multiset(Ends(sections)) - multiset{(sections[i].up, sections[i].down)}
  {
    EndsWithout(sections, i);
    MultisetWithout(Ends(sections), i);
  }

  lemma {:induction false} EndsWithoutTwo(sections: seq<Section>, lo: int, hi: int)
    requires 0 <= lo < hi < |sections|
    ensures multiset(Ends(Without(Without(sections, hi), lo))) ==
            multiset(Ends(sections)) - multiset{(sections[lo].up, sections[lo].down)} - multiset{(sections[hi].up, sections[hi].down)}
  {
    var e, once := Ends(sections), Without(sections, hi);
    EndsWithout(sections, hi);
    EndsWithout(once, lo);
    MultisetWithoutTwo(e, lo, hi);
  }

  lemma {:induction false} EndsWithoutBoth(sections: seq<Section>, i: int, j: int)
    requires 0 <= i < |sections| && 0 <= j < |sections| && i != j
    ensures multiset(Ends(WithoutBoth(sections, i, j))) ==
            multiset(Ends(sections)) - multiset{(sections[i].up, sections[i].down)} - multiset{(sections[j].up, sections[j].down)}
  {
    if i < j {
      EndsWithoutTwo(sections, i, j);
    } else {
      EndsWithoutTwo(sections, j, i);
      MultisetSwap(multiset(Ends(sections)), (sections[i].up, sections[i].down), (sections[j].up, sections[j].down));
    }
  }

  lemma {:induction false} LegsInsert(path: seq<Station>, k: int, x: Station)
    requires 0 <= k < |path| - 1
    ensures Legs(InsertAt(path, k + 1, x)) == Legs(path)[..k] + [(path[k], x), (x, path[k + 1])] + Legs(path)[k + 1..]
  {
    var q, legs := InsertAt(path, k + 1, x), Legs(path);
    var rhs := legs[..k] + [(path[k], x), (x, path[k + 1])] + legs[k + 1..];
    assert |q| == |path| + 1;
    forall m | 0 <= m < |rhs|
      ensures Legs(q)[m] == rhs[m]
    {
      if m < k {
        assert q[m] == path[m] && q[m + 1] == path[m + 1];
        assert rhs[m] == legs[m];
      } else if m == k {
        assert q[m] == path[k] && q[m + 1] == x;
      } else if m == k + 1 {
        assert q[m] == x && q[m + 1] == path[k + 1];
      } else {
        assert q[m] == path[m - 1] && q[m + 1] == path[m];
        assert rhs[m] == legs[m - 1];
      }
    }
  }

  lemma {:induction false} LegsAppend(path: seq<Station>, x: Station)
    requires 1 <= |path|
    ensures Legs(path + [x]) == Legs(path) + [(path[|path| - 1], x)]
  {
    assert (path + [x])[..|path|] == path;
  }

  lemma {:induction false} LegsPrepend(path: seq<Station>, x: Station)
    requires 1 <= |path|
    ensures Legs([x] + path) == [(x, path[0])] + Legs(path)
  {
    var q, rhs := [x] + path, [(x, path[0])] + Legs(path);
    forall m | 0 <= m < |rhs|
      ensures Legs(q)[m] == rhs[m]
    {
      if 0 < m {
        assert q[m] == path[m - 1] && q[m + 1] == path[m];
        assert rhs[m] == Legs(path)[m - 1];
      }
    }
  }

  lemma {:induction false} LegsDropFirst(path: seq<Station>)
    requires 2 <= |path|
    ensures Legs(path[1..]) == Legs(path)[1..]
  {
    var q, rhs := path[1..], Legs(path)[1..];
    forall m | 0 <= m < |rhs|
      ensures Legs(q)[m] == rhs[m]
    {
      assert q[m] == path[m + 1] && q[m + 1] == path[m + 2];
      assert rhs[m] == Legs(path)[m + 1];
    }
  }

  lemma {:induction false} LegsWithoutFirst(path: seq<Station>)
    requires 2 <= |path|
    ensures multiset(Legs(path[1..])) == multiset(Legs(path)) - multiset{(path[0], path[1])}
  {
    var legs := Legs(path);
    LegsDropFirst(path);
    assert legs == [legs[0]] + legs[1..];
  }

  lemma {:induction false} LegsWithoutLast(path: seq<Station>)
    requires 2 <= |path|
    ensures multiset(Legs(path[..|path| - 1])) == multiset(Legs(path)) - multiset{(path[|path| - 2], path[|path| - 1])}
  {
    var n := |path|;
    assert Legs(path) == Legs(path[..n - 1]) + [(path[n - 2], path[n - 1])];
  }

  lemma {:induction false} LegsDropInterior(path: seq<Station>, k: int)
    requires 0 < k < |path| - 1
    ensures Legs(path[..k] + path[k + 1..]) == Legs(path)[..k - 1] + [(path[k - 1], path[k + 1])] + Legs(path)[k + 1..]
  {
    var q, legs := path[..k] + path[k + 1..], Legs(path);
    var rhs := legs[..k - 1] + [(path[k - 1], path[k + 1])] + legs[k + 1..];
    assert |q| == |path| - 1;
    forall m | 0 <= m < |rhs|
      ensures Legs(q)[m] == rhs[m]
    {
      if m < k - 1 {
        assert q[m] == path[m] && q[m + 1] == path[m + 1];
        assert rhs[m] == legs[m];
      } else if m == k - 1 {
        assert q[m] == path[k - 1] && q[m + 1] == path[k + 1];
      } else {
        assert q[m] == path[m + 1] && q[m + 1] == path[m + 2];
        assert rhs[m] == legs[m + 1];
      }
    }
  }

  // ---------------------------------------------------------------------------------------------
  // Reading the chain: where a section lies on the path, and which section covers a leg

  /** Every section is a leg of the path. */
  lemma {:induction false} LegOf(sections: seq<Section>, path: seq<Station>, i: int) returns (k: int)
    requires Chain(sections, path) && 0 <= i < |sections|
    ensures 0 <= k < |sections| && path[k] == sections[i].up && path[k + 1] == sections[i].down
  {
    var ends, legs := Ends(sections), Legs(path);
    var e := ends[i];
    assert e in multiset(ends);
    assert e in multiset(legs);
    assert e in legs;
    k :| 0 <= k < |legs| && legs[k] == e;
  }

  /** Every leg of the path is a section. */
  lemma {:induction false} SectionOf(sections: seq<Section>, path: seq<Station>, k: int) returns (i: int)
    requires Chain(sections, path) && 0 <= k < |sections|
    ensures 0 <= i < |sections| && sections[i].up == path[k] && sections[i].down == path[k + 1]
  {
    var ends, legs := Ends(sections), Legs(path);
    var l := legs[k];
    assert l in multiset(legs);
    assert l in multiset(ends);
    assert l in ends;
    i :| 0 <= i < |ends| && ends[i] == l;
  }

  /** A station has a section leaving it exactly when it is on the line and is not the downstream
      terminus; that section goes to the next station of the path. */
  lemma {:induction false} Outgoing(sections: seq<Section>, path: seq<Station>, x: Station)
    requires Chain(sections, path)
    ensures 0 <= IndexOfUp(sections, x) <==> x in path && x != path[|path| - 1]
    ensures 0 <= IndexOfUp(sections, x) ==>
              0 <= IndexOf(path, x) < |sections| && sections[IndexOfUp(sections, x)].down == path[IndexOf(path, x) + 1]
  {
    var i := IndexOfUp(sections, x);
    if 0 <= i {
      var k := LegOf(sections, path, i);
      IndexOfDistinct(path, k);
      assert path[k] != path[|path| - 1];
    }
    if x in path && x != path[|path| - 1] {
      var j := SectionOf(sections, path, IndexOf(path, x));
    }
  }

  /** A station has a section arriving at it exactly when it is on the line and is not the upstream
      terminus; that section comes from the previous station of the path. */
  lemma {:induction false} Incoming(sections: seq<Section>, path: seq<Station>, x: Station)
    requires Chain(sections, path)
    ensures 0 <= IndexOfDown(sections, x) <==> x in path && x != path[0]
    ensures 0 <= IndexOfDown(sections, x) ==>
              1 <= IndexOf(path, x) && sections[IndexOfDown(sections, x)].up == path[IndexOf(path, x) - 1]
  {
    var i := IndexOfDown(sections, x);
    if 0 <= i {
      var k := LegOf(sections, path, i);
      IndexOfDistinct(path, k + 1);
      assert path[k + 1] != path[0];
    }
    if x in path && x != path[0] {
      var j := SectionOf(sections, path, IndexOf(path, x) - 1);
    }
  }

  /** A station is registered on the line exactly when it is on the path. */
  lemma {:induction false} RegisteredOnPath(sections: seq<Section>, path: seq<Station>, x: Station)
    requires Chain(sections, path)
    ensures Registered(sections, x) <==> x in path
  {
    Outgoing(sections, path, x);
    Incoming(sections, path, x);
  }

  // ---------------------------------------------------------------------------------------------
  // The edits of the section list that keep it a chain

  lemma {:induction false} SplitCount(sections: seq<Section>, path: seq<Station>, i: int, k: int, x: Station, a: Section, b: Section)
    requires multiset(Ends(sections)) == multiset(Legs(path))
    requires 0 <= i < |sections| && 0 <= k < |path| - 1
    requires sections[i].up == path[k] && sections[i].down == path[k + 1]
    requires (a.up == path[k] && a.down == x && b.up == x && b.down == path[k + 1]) ||
             (a.up == x && a.down == path[k + 1] && b.up == path[k] && b.down == x)
    ensures multiset(Ends(sections[i := a] + [b])) == multiset(Legs(InsertAt(path, k + 1, x)))
  {
    var legs, l1, l2 := Legs(path), (path[k], x), (x, path[k + 1]);
    EndsSplitCount(sections, i, a, b);
    LegsInsert(path, k, x);
    MultisetSplit(legs, k, l1, l2);
    assert legs[k] == (sections[i].up, sections[i].down);
    if a.up == x {
      MultisetAddSwap(multiset(legs) - multiset{legs[k]}, l1, l2);
    }
  }

  /** Splitting leg `k` (section `i`) at a new station `x`: the section is rewritten in place to one
      half of the leg and the other half is appended; `x` enters the path between the leg's ends. */
  lemma {:induction false} SplitLeg(sections: seq<Section>, path: seq<Station>, i: int, k: int, x: Station, a: Section, b: Section)
    requires Chain(sections, path) && 0 <= i < |sections| && 0 <= k < |sections|
    requires sections[i].up == path[k] && sections[i].down == path[k + 1] && x !in path
    requires (a.up == path[k] && a.down == x && b.up == x && b.down == path[k + 1]) ||
             (a.up == x && a.down == path[k + 1] && b.up == path[k] && b.down == x)
    ensures Chain(sections[i := a] + [b], InsertAt(path, k + 1, x))
  {
    SplitCount(sections, path, i, k, x, a, b);
    InsertKeepsDistinct(path, k + 1, x);
  }

  lemma {:induction false} AppendCount(sections: seq<Section>, path: seq<Station>, b: Section)
    requires multiset(Ends(sections)) == multiset(Legs(path)) && 1 <= |path| && b.up == path[|path| - 1]
    ensures multiset(Ends(sections + [b])) == multiset(Legs(path + [b.down]))
  {
    EndsAppend(sections, b);
    LegsAppend(path, b.down);
  }

  lemma {:induction false} PrependCount(sections: seq<Section>, path: seq<Station>, b: Section)
    requires multiset(Ends(sections)) == multiset(Legs(path)) && 1 <= |path| && b.down == path[0]
    ensures multiset(Ends(sections + [b])) == multiset(Legs([b.up] + path))
  {
    EndsAppend(sections, b);
    LegsPrepend(path, b.up);
  }

  /** Extending the line past its downstream terminus. */
  lemma {:induction false} AppendLeg(sections: seq<Section>, path: seq<Station>, b: Section)
    requires Chain(sections, path) && b.up == path[|path| - 1] && b.down !in path
    ensures Chain(sections + [b], path + [b.down])
  {
    AppendCount(sections, path, b);
    AppendKeepsDistinct(path, b.down);
  }

  /** Extending the line before its upstream terminus. */
  lemma {:induction false} PrependLeg(sections: seq<Section>, path: seq<Station>, b: Section)
    requires Chain(sections, path) && b.down == path[0] && b.up !in path
    ensures Chain(sections + [b], [b.up] + path)
  {
    PrependCount(sections, path, b);
    PrependKeepsDistinct(path, b.up);
  }

  lemma {:induction false} DropFirstCount(sections: seq<Section>, path: seq<Station>, i: int)
    requires multiset(Ends(sections)) == multiset(Legs(path)) && 2 <= |path|
    requires 0 <= i < |sections| && sections[i].up == path[0] && sections[i].down == path[1]
    ensures multiset(Ends(Without(sections, i))) == multiset(Legs(path[1..]))
  {
    EndsWithoutCount(sections, i);
    LegsWithoutFirst(path);
  }

  lemma {:induction false} DropLastCount(sections: seq<Section>, path: seq<Station>, j: int)
    requires multiset(Ends(sections)) == multiset(Legs(path)) && 2 <= |path|
    requires 0 <= j < |sections| && sections[j].up == path[|path| - 2] && sections[j].down == path[|path| - 1]
    ensures multiset(Ends(Without(sections, j))) == multiset(Legs(path[..|path| - 1]))
  {
    EndsWithoutCount(sections, j);
    LegsWithoutLast(path);
  }

  /** Dropping the section that leaves the upstream terminus. */
  lemma {:induction false} DropFirstLeg(sections: seq<Section>, path: seq<Station>, i: int)
    requires Chain(sections, path) && 2 <= |sections| && 0 <= i < |sections| && sections[i].up == path[0]
    ensures Chain(Without(sections, i), path[1..])
  {
    var k := LegOf(sections, path, i);
    SamePosition(path, k, 0);
    DropFirstCount(sections, path, i);
    RemovedFirst(path);
  }

  /** Dropping the section that arrives at the downstream terminus. */
  lemma {:induction false} DropLastLeg(sections: seq<Section>, path: seq<Station>, j: int)
    requires Chain(sections, path) && 2 <= |sections| && 0 <= j < |sections| && sections[j].down == path[|path| - 1]
    ensures Chain(Without(sections, j), path[..|path| - 1])
  {
    var n := |path|;
    var k := LegOf(sections, path, j);
    SamePosition(path, k + 1, n - 1);
    DropLastCount(sections, path, j);
    RemovedLast(path);
  }

  lemma {:induction false} MergeCount(sections: seq<Section>, path: seq<Station>, k: int, i: int, j: int, m: Section)
    requires multiset(Ends(sections)) == multiset(Legs(path)) && 0 < k < |path| - 1
    requires 0 <= i < |sections| && sections[i].up == path[k] && sections[i].down == path[k + 1]
    requires 0 <= j < |sections| && sections[j].up == path[k - 1] && sections[j].down == path[k]
    requires i != j && m.up == path[k - 1] && m.down == path[k + 1]
    ensures multiset(Ends(WithoutBoth(sections, i, j) + [m])) == multiset(Legs(path[..k] + path[k + 1..]))
  {
    var legs := Legs(path);
    EndsWithoutBoth(sections, i, j);
    EndsAppend(WithoutBoth(sections, i, j), m);
    LegsDropInterior(path, k);
    MultisetJoin(legs, k, (m.up, m.down));
    assert legs[k] == (sections[i].up, sections[i].down) && legs[k - 1] == (sections[j].up, sections[j].down);
  }

  /** Merging the two legs around interior station `path[k]` (sections `j` into it and `i` out of
      it) into one section `m` that joins their outer stations. */
  lemma {:induction false} MergeLegs(sections: seq<Section>, path: seq<Station>, k: int, i: int, j: int, m: Section)
    requires Chain(sections, path) && 0 < k < |sections|
    requires 0 <= i < |sections| && sections[i].up == path[k] && sections[i].down == path[k + 1]
    requires 0 <= j < |sections| && sections[j].up == path[k - 1] && sections[j].down == path[k]
    requires m.up == path[k - 1] && m.down == path[k + 1]
    ensures Chain(WithoutBoth(sections, i, j) + [m], path[..k] + path[k + 1..])
  {
    assert i != j;
    assert |WithoutBoth(sections, i, j)| == |sections| - 2;
    assert |path[..k] + path[k + 1..]| == |path| - 1;
    MergeCount(sections, path, k, i, j, m);
    RemoveKeepsDistinct(path, k);
  }

  // ---------------------------------------------------------------------------------------------
  // No two sections share an upstation, or a downstation

  lemma {:induction false} CountTwice<T>(s: seq<T>, t: int, u: int)
    requires 0 <= t < u < |s| && s[t] == s[u]
    ensures multiset(s)[s[t]] >= 2
  {
    assert s == s[..t] + [s[t]] + s[t + 1..u] + [s[u]] + s[u + 1..];
  }

  /** A path without repetitions has each leg once. */
  lemma {:induction false} LegsOnce(path: seq<Station>, l: (Station, Station))
    requires Distinct(path)
    ensures multiset(Legs(path))[l] <= 1
  {
    if 2 <= |path| {
      var legs, rest := Legs(path), path[1..];
      LegsDropFirst(path);
      assert legs == [legs[0]] + Legs(rest);
      forall m | 0 <= m < |Legs(rest)|
        ensures Legs(rest)[m] != legs[0]
      {
        assert rest[m] == path[m + 1];
      }
      assert legs[0] !in Legs(rest);
      assert Distinct(rest);
      LegsOnce(rest, l);
      assert multiset(legs) == multiset{legs[0]} + multiset(Legs(rest));
    }
  }

  /** Two sections of a line that leave the same station are the same section. */
  lemma {:induction false} UniqueUp(sections: seq<Section>, path: seq<Station>, t: int, u: int)
    requires Chain(sections, path) && 0 <= t < |sections| && 0 <= u < |sections|
    requires sections[t].up == sections[u].up
    ensures t == u
  {
    var kt := LegOf(sections, path, t);
    var ku := LegOf(sections, path, u);
    IndexOfDistinct(path, kt);
    IndexOfDistinct(path, ku);
    SameLeg(sections, path, t, u);
  }

  /** Two sections of a line that arrive at the same station are the same section. */
  lemma {:induction false} UniqueDown(sections: seq<Section>, path: seq<Station>, t: int, u: int)
    requires Chain(sections, path) && 0 <= t < |sections| && 0 <= u < |sections|
    requires sections[t].down == sections[u].down
    ensures t == u
  {
    var kt := LegOf(sections, path, t);
    var ku := LegOf(sections, path, u);
    IndexOfDistinct(path, kt + 1);
    IndexOfDistinct(path, ku + 1);
    SameLeg(sections, path, t, u);
  }

  lemma {:induction false} SameLeg(sections: seq<Section>, path: seq<Station>, t: int, u: int)
    requires Chain(sections, path) && 0 <= t < |sections| && 0 <= u < |sections|
    requires sections[t].up == sections[u].up && sections[t].down == sections[u].down
    ensures t == u
  {
    var ends := Ends(sections);
    if t != u {
      CountTwice(ends, if t < u then t else u, if t < u then u else t);
      LegsOnce(path, ends[t]);
      assert false;
    }
  }
}
