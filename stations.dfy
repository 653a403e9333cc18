/** Stations, and the up-to-down order of the stations of a line (its path). */
module Stations {

  /** Stations are referred to by name and compared by value. */
  type Station = string

  /** No station occurs twice. */
  ghost predicate Distinct(path: seq<Station>) {
    forall i, j :: 0 <= i < j < |path| ==> path[i] != path[j]
  }

  /** The position of the first occurrence of `x` in `path`, or -1 when it does not occur. */
  function IndexOf(path: seq<Station>, x: Station): (k: int)
    ensures -1 <= k < |path|
    ensures k < 0 <==> x !in path
    ensures 0 <= k ==> path[k] == x && x !in path[..k]
  {
    if |path| == 0 then -1
    else if path[0] == x then 0
    else
      var k := IndexOf(path[1..], x);
      assert path[1..][..if k < 0 then 0 else k] == path[1..if k < 0 then 1 else k + 1];
      if k < 0 then -1 else k + 1
  }

  /** `path` with `x` placed at position `k`. */
  function InsertAt(path: seq<Station>, k: int, x: Station): (r: seq<Station>)
    requires 0 <= k <= |path|
  {
    path[..k] + [x] + path[k..]
  }

  /** The path after a new leg `up -> down` is added: a new `down` follows a registered `up`,
      a new `up` precedes a registered `down`. */
  function AddedPath(path: seq<Station>, up: Station, down: Station): seq<Station> {
    if up in path then InsertAt(path, IndexOf(path, up) + 1, down)
    else if down in path then InsertAt(path, IndexOf(path, down), up)
    else path
  }

  /** The path with station `x` taken out. */
  function RemovedPath(path: seq<Station>, x: Station): seq<Station> {
    var k := IndexOf(path, x);
    if k < 0 then path else path[..k] + path[k + 1..]
  }

  /** In a path without repetitions, a station occurs at one position only. */
  lemma {:induction false} SamePosition(path: seq<Station>, a: int, b: int)
    requires Distinct(path) && 0 <= a < |path| && 0 <= b < |path| && path[a] == path[b]
    ensures a == b
  {
    if a < b || b < a {
      assert false;
    }
  }

  /** In a path without repetitions, a station's position is the one `IndexOf` finds. */
  lemma {:induction false} IndexOfDistinct(path: seq<Station>, k: int)
    requires Distinct(path) && 0 <= k < |path|
    ensures IndexOf(path, path[k]) == k
  {
    assert path[k] in path;
  }

  /** Adding a station that is not yet on the path keeps it free of repetitions. */
  lemma {:induction false} InsertKeepsDistinct(path: seq<Station>, k: int, x: Station)
    requires Distinct(path) && 0 <= k <= |path| && x !in path
    ensures Distinct(InsertAt(path, k, x))
  {
    var r := InsertAt(path, k, x);
    forall i, j | 0 <= i < j < |r| ensures r[i] != r[j] {
      if i < k && j < k {
      } else if i < k && j == k {
        assert r[i] == path[i];
      } else if i < k {
        assert r[i] == path[i] && r[j] == path[j - 1];
      } else if i == k {
        assert r[j] == path[j - 1];
      } else {
        assert r[i] == path[i - 1] && r[j] == path[j - 1];
      }
    }
  }

  lemma {:induction false} AppendKeepsDistinct(path: seq<Station>, x: Station)
    requires Distinct(path) && x !in path
    ensures Distinct(path + [x])
  {
    InsertKeepsDistinct(path, |path|, x);
    assert InsertAt(path, |path|, x) == path + [x];
  }

  lemma {:induction false} PrependKeepsDistinct(path: seq<Station>, x: Station)
    requires Distinct(path) && x !in path
    ensures Distinct([x] + path)
  {
    InsertKeepsDistinct(path, 0, x);
    assert InsertAt(path, 0, x) == [x] + path;
  }

  /** Taking a station out keeps the path free of repetitions. */
  lemma {:induction false} RemoveKeepsDistinct(path: seq<Station>, k: int)
    requires Distinct(path) && 0 <= k < |path|
    ensures Distinct(path[..k] + path[k + 1..])
  {
    var r := path[..k] + path[k + 1..];
    forall i, j | 0 <= i < j < |r| ensures r[i] != r[j] {
      var i', j' := if i < k then i else i + 1, if j < k then j else j + 1;
      assert r[i] == path[i'] && r[j] == path[j'];
    }
  }
  /** Taking out the first station of a path without repetitions drops its head. */
  lemma {:induction false} RemovedFirst(path: seq<Station>)
    requires Distinct(path) && 1 <= |path|
    ensures RemovedPath(path, path[0]) == path[1..] && Distinct(path[1..])
  {
    IndexOfDistinct(path, 0);
    RemoveKeepsDistinct(path, 0);
    assert path[..0] + path[1..] == path[1..];
  }

  /** Taking out the last station of a path without repetitions drops its last element. */
  lemma {:induction false} RemovedLast(path: seq<Station>)
    requires Distinct(path) && 1 <= |path|
    ensures RemovedPath(path, path[|path| - 1]) == path[..|path| - 1] && Distinct(path[..|path| - 1])
  {
    var n := |path|;
    IndexOfDistinct(path, n - 1);
    RemoveKeepsDistinct(path, n - 1);
    assert path[..n - 1] + path[n..] == path[..n - 1];
  }

  /** A new station after the last one is appended to the path. */
  lemma {:induction false} AddedAtEnd(path: seq<Station>, up: Station, down: Station)
    requires Distinct(path) && 1 <= |path| && up == path[|path| - 1] && down !in path
    ensures AddedPath(path, up, down) == path + [down]
  {
    IndexOfDistinct(path, |path| - 1);
    assert InsertAt(path, |path|, down) == path + [down];
  }

  /** A new station before the first one is prepended to the path. */
  lemma {:induction false} AddedAtStart(path: seq<Station>, up: Station, down: Station)
    requires Distinct(path) && 1 <= |path| && down == path[0] && up !in path
    ensures AddedPath(path, up, down) == [up] + path
  {
    IndexOfDistinct(path, 0);
    assert InsertAt(path, 0, up) == [up] + path;
  }


  /** A station that was not on the path is found where it was inserted. */
  lemma {:induction false} IndexOfInserted(path: seq<Station>, k: int, x: Station)
    requires 0 <= k <= |path| && x !in path
    ensures IndexOf(InsertAt(path, k, x), x) == k
  {
    var r := InsertAt(path, k, x);
    forall m | 0 <= m < |r| && m != k
      ensures r[m] != x
    {
      if m < k {
        assert r[m] == path[m];
      } else {
        assert r[m] == path[m - 1];
      }
    }
    assert r[k] == x;
  }

  /** Taking an inserted station out again gives back the path. */
  lemma {:induction false} RemoveInserted(path: seq<Station>, k: int, x: Station)
    requires 0 <= k <= |path| && x !in path
    ensures RemovedPath(InsertAt(path, k, x), x) == path
  {
    var r := InsertAt(path, k, x);
    IndexOfInserted(path, k, x);
    assert r[..k] == path[..k] && r[k + 1..] == path[k..];
    assert path[..k] + path[k..] == path;
  }

  /** Removing the station that was just added gives back the path one started from. */
  lemma {:induction false} RemoveUndoesAdd(path: seq<Station>, up: Station, down: Station)
    requires (up in path) != (down in path)
    ensures RemovedPath(AddedPath(path, up, down), if up in path then down else up) == path
  {
    var x := if up in path then down else up;
    var k := if up in path then IndexOf(path, up) + 1 else IndexOf(path, down);
    assert AddedPath(path, up, down) == InsertAt(path, k, x);
    RemoveInserted(path, k, x);
  }
}
