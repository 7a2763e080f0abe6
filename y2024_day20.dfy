/**
 * Year 2024, day 20: a race track on a grid.  `find_path` follows the track
 * from the start to the end; `count_cheat_possibilities` counts the pairs of
 * path positions that a cheat of at most `cheat_duration` steps through walls
 * joins while saving at least `min_time_safe` steps.
 */
module Y2024Day20 {
  import opened Common

  type Pos = (int, int)

  /** The track as rows of open (`true`) and wall cells; `Grid::from` insists
      that all rows are as long as the first. */
  predicate Rect(g: seq<seq<bool>>)
  {
    forall y | 0 <= y < |g| :: |g[y]| == |g[0]|
  }

  function Width(g: seq<seq<bool>>): nat
  {
    if |g| == 0 then 0 else |g[0]|
  }

  predicate InGrid(g: seq<seq<bool>>, p: Pos)
  {
    0 <= p.0 < Width(g) && 0 <= p.1 < |g|
  }

  predicate Open(g: seq<seq<bool>>, p: Pos)
    requires Rect(g)
  {
    InGrid(g, p) && g[p.1][p.0]
  }

  predicate Orthogonal(p: Pos, q: Pos)
  {
    Abs(p.0 - q.0) + Abs(p.1 - q.1) == 1
  }

  /** `neighbors4` on a grid that does not wrap: up, left, right, down, those
      inside the grid.  `Utils.Neighbors4` models the same list as an
      iterator object a method builds; the rounds of `find_path` are
      specified by functions, which cannot call a method, so the list is
      written out here as a value. */
  function Neighbors4(g: seq<seq<bool>>, p: Pos): (ns: seq<Pos>)
    ensures forall k | 0 <= k < |ns| :: InGrid(g, ns[k]) && Orthogonal(ns[k], p)
    ensures forall q | InGrid(g, q) && Orthogonal(q, p) :: q in ns
  {
    var (x, y) := p;
    (if InGrid(g, (x, y - 1)) then [(x, y - 1)] else [])
    + (if InGrid(g, (x - 1, y)) then [(x - 1, y)] else [])
    + (if InGrid(g, (x + 1, y)) then [(x + 1, y)] else [])
    + (if InGrid(g, (x, y + 1)) then [(x, y + 1)] else [])
  }

  /** `path.iter().rev().take(3)`: the last three entries, or all of them. */
  function Last3(path: seq<Pos>): seq<Pos>
  {
    if |path| >= 3 then path[|path| - 3..] else path
  }

  /**
   * The `for` loop of one round of `find_path`: every neighbour of the
   * position the round started from is tried in turn, and each open one that
   * is not among the last three entries is appended.  The loop's `continue`
   * does not leave it, so the remaining neighbours of the old position are
   * still tried after a move.
   */
  function Sweep(g: seq<seq<bool>>, ns: seq<Pos>, k: nat, path: seq<Pos>): seq<Pos>
    requires Rect(g) && k <= |ns|
    decreases |ns| - k
  {
    if k == |ns| then path else Sweep(g, ns, k + 1, Try(g, ns[k], path))
  }

  /** One neighbour tried: appended when open and not among the last three
      entries. */
  function Try(g: seq<seq<bool>>, q: Pos, path: seq<Pos>): seq<Pos>
    requires Rect(g)
  {
    if Open(g, q) && q !in Last3(path) then path + [q] else path
  }

  /** `find_path` with at most `fuel` rounds: `None` when the end is not
      reached by then. */
  function Follow(g: seq<seq<bool>>, end: Pos, path: seq<Pos>, fuel: nat): (r: Option<seq<Pos>>)
    requires Rect(g) && |path| > 0
    ensures r.Some? ==> |r.value| >= |path| && r.value[|r.value| - 1] == end
    decreases fuel
  {
    if path[|path| - 1] == end then Some(path)
    else if fuel == 0 then None
    else
      SweepExtends(g, Neighbors4(g, path[|path| - 1]), 0, path);
      Follow(g, end, Sweep(g, Neighbors4(g, path[|path| - 1]), 0, path), fuel - 1)
  }

  lemma {:induction false} SweepExtends(g: seq<seq<bool>>, ns: seq<Pos>, k: nat, path: seq<Pos>)
    requires Rect(g) && k <= |ns|
    ensures |Sweep(g, ns, k, path)| >= |path| && Sweep(g, ns, k, path)[..|path|] == path
    decreases |ns| - k
  {
    if k < |ns| {
      var next := Try(g, ns[k], path);
      SweepExtends(g, ns, k + 1, next);
      assert next[..|path|] == path;
    }
  }

  /**
   * What `find_path` promises of its path: it starts at the start; every later
   * entry is an open cell next to some earlier entry and differs from the
   * three entries before it.
   */
  predicate TrackPath(g: seq<seq<bool>>, start: Pos, path: seq<Pos>)
    requires Rect(g)
  {
    |path| > 0 && path[0] == start
    && (forall k | 0 < k < |path| :: FreshStep(g, path, k) && NextToEarlier(path, k))
  }

  predicate FreshStep(g: seq<seq<bool>>, path: seq<Pos>, k: nat)
    requires Rect(g) && k < |path|
  {
    Open(g, path[k]) && path[k] !in Last3(path[..k])
  }

  predicate NextToEarlier(path: seq<Pos>, k: nat)
    requires k < |path|
  {
    exists j | 0 <= j < k :: Orthogonal(path[k], path[j])
  }

  /** A round appends only open neighbours of the position it started from,
      none of them among the three entries before it. */
  lemma {:induction false} SweepKeeps(g: seq<seq<bool>>, start: Pos, ns: seq<Pos>, i: nat, path: seq<Pos>, from: nat)
    requires Rect(g) && TrackPath(g, start, path) && from < |path| && i <= |ns|
    requires forall k | i <= k < |ns| :: Orthogonal(ns[k], path[from])
    ensures TrackPath(g, start, Sweep(g, ns, i, path))
    decreases |ns| - i
  {
    if i < |ns| {
      var q := ns[i];
      if Open(g, q) && q !in Last3(path) {
        var next := path + [q];
        assert next[..|path|] == path;
        forall k | 0 < k < |next|
          ensures FreshStep(g, next, k) && NextToEarlier(next, k)
        {
          if k < |path| {
            assert next[..k] == path[..k];
            assert FreshStep(g, path, k);
            assert NextToEarlier(path, k);
            var j :| 0 <= j < k && Orthogonal(path[k], path[j]);
            assert Orthogonal(next[k], next[j]);
          } else {
            assert Orthogonal(next[k], next[from]);
          }
        }
        SweepKeeps(g, start, ns, i + 1, next, from);
      } else {
        SweepKeeps(g, start, ns, i + 1, path, from);
      }
    }
  }

  /** A round of `find_path` that does not stop is a sweep over the last
      position's neighbours. */
  lemma FollowStep(g: seq<seq<bool>>, end: Pos, path: seq<Pos>, fuel: nat)
    requires Rect(g) && |path| > 0 && path[|path| - 1] != end && fuel > 0
    ensures |Sweep(g, Neighbors4(g, path[|path| - 1]), 0, path)| > 0
    ensures Follow(g, end, path, fuel) == Follow(g, end, Sweep(g, Neighbors4(g, path[|path| - 1]), 0, path), fuel - 1)
  {
    SweepExtends(g, Neighbors4(g, path[|path| - 1]), 0, path);
  }

  /** The step `FollowStep` gives, for a swept path already named. */
  lemma FollowRound(g: seq<seq<bool>>, end: Pos, path: seq<Pos>, fuel: nat, next: seq<Pos>)
    requires Rect(g) && |path| > 0 && path[|path| - 1] != end && fuel > 0
    requires next == Sweep(g, Neighbors4(g, path[|path| - 1]), 0, path)
    ensures |next| > 0 && Follow(g, end, path, fuel) == Follow(g, end, next, fuel - 1)
  {
    FollowStep(g, end, path, fuel);
  }

  /** Whatever `find_path` returns is a track path from the start that ends at
      the end. */
  lemma {:induction false} FollowSound(g: seq<seq<bool>>, start: Pos, end: Pos, path: seq<Pos>, fuel: nat)
    requires Rect(g) && TrackPath(g, start, path)
    ensures Follow(g, end, path, fuel).Some? ==> TrackPath(g, start, Follow(g, end, path, fuel).value)
    decreases fuel
  {
    if path[|path| - 1] != end && fuel > 0 {
      var ns := Neighbors4(g, path[|path| - 1]);
      var next := Sweep(g, ns, 0, path);
      SweepKeeps(g, start, ns, 0, path, |path| - 1);
      FollowStep(g, end, path, fuel);
      FollowSound(g, start, end, next, fuel - 1);
    }
  }

  /**
   * `find_path`: a loop of rounds until the position is the end.  At most
   * `fuel` rounds run; the source loops for as long as it takes.
   */
  method FindPath(g: seq<seq<bool>>, start: Pos, end: Pos, fuel: nat) returns (r: Option<seq<Pos>>)
    requires Rect(g)
    ensures r == Follow(g, end, [start], fuel)
  {
    ghost var goal := Follow(g, end, [start], fuel);
    var path := [start];
    var pos := start;
    var left := fuel;
    while pos != end
      invariant |path| > 0 && pos == path[|path| - 1]
      invariant goal == Follow(g, end, path, left)
      decreases left
    {
      if left == 0 {
        return None;
      }
      path, pos := Advance(g, end, path, pos, left);
      left := left - 1;
    }
    return Some(path);
  }

  /** One turn of the `while` loop of `find_path`: a round over the
      neighbours of the current position, after which the search goes on as
      `Follow` prescribes with one round fewer. */
  method Advance(g: seq<seq<bool>>, end: Pos, path: seq<Pos>, pos: Pos, left: nat) returns (path': seq<Pos>, pos': Pos)
    requires Rect(g) && |path| > 0 && pos == path[|path| - 1] && pos != end && left > 0
    ensures |path'| > 0 && pos' == path'[|path'| - 1]
    ensures Follow(g, end, path, left) == Follow(g, end, path', left - 1)
  {
    path', pos' := Round(g, Neighbors4(g, pos), path, pos);
    FollowRound(g, end, path, left, path');
  }

  /** One round of `find_path`: the loop over the neighbours of the position
      the round started from, which keeps trying them after a move. */
  method Round(g: seq<seq<bool>>, ns: seq<Pos>, path: seq<Pos>, pos: Pos) returns (path': seq<Pos>, pos': Pos)
    requires Rect(g) && |path| > 0 && pos == path[|path| - 1]
    ensures path' == Sweep(g, ns, 0, path) && |path'| > 0 && pos' == path'[|path'| - 1]
  {
    path', pos' := path, pos;
    for k := 0 to |ns|
      invariant |path'| > 0 && pos' == path'[|path'| - 1]
      invariant Sweep(g, ns, 0, path) == Sweep(g, ns, k, path')
    {
      path', pos' := TryNeighbor(g, ns[k], path', pos');
    }
  }

  /** The body of the round's loop: an open neighbour not among the last three
      entries becomes the position and is appended. */
  method TryNeighbor(g: seq<seq<bool>>, npos: Pos, path: seq<Pos>, pos: Pos) returns (path': seq<Pos>, pos': Pos)
    requires Rect(g) && |path| > 0 && pos == path[|path| - 1]
    ensures path' == Try(g, npos, path) && |path'| > 0 && pos' == path'[|path'| - 1]
  {
    path', pos' := path, pos;
    if Open(g, npos) && npos !in Last3(path) {
      pos' := npos;
      path' := path + [pos'];
    }
  }

  // ---------------------------------------------------------------------------
  // Counting cheats

  function Dist(p: Pos, q: Pos): nat
  {
    Abs(q.0 - p.0) + Abs(q.1 - p.1)
  }

  /** Jumping from entry `i` to entry `i + j` is a cheat: it takes at most
      `duration` steps and saves at least `safe` of the `j` steps along the
      path. */
  predicate Cheat(path: seq<Pos>, i: nat, j: nat, duration: nat, safe: nat)
    requires i + j < |path|
  {
    Dist(path[i], path[i + j]) <= duration && j >= safe + Dist(path[i], path[i + j])
  }

  /** The cheats from entry `i` with offsets below `j`. */
  function CheatsFrom(path: seq<Pos>, i: nat, j: nat, duration: nat, safe: nat): nat
    requires i + j <= |path|
  {
    if j == 0 then 0
    else CheatsFrom(path, i, j - 1, duration, safe) + (if Cheat(path, i, j - 1, duration, safe) then 1 else 0)
  }

  /** The cheats from the first `n` entries, offsets from 0 to the end of the
      path. */
  function CheatsUpTo(path: seq<Pos>, n: nat, duration: nat, safe: nat): nat
    requires n <= |path|
  {
    if n == 0 then 0
    else CheatsUpTo(path, n - 1, duration, safe) + CheatsFrom(path, n - 1, |path| - (n - 1), duration, safe)
  }

  /** `count_cheat_possibilities`. */
  function CountCheats(path: seq<Pos>, duration: nat, safe: nat): nat
  {
    CheatsUpTo(path, |path|, duration, safe)
  }

  lemma {:induction false} CheatsFromMono(path: seq<Pos>, i: nat, j: nat, d1: nat, d2: nat, s1: nat, s2: nat)
    requires i + j <= |path| && d1 <= d2 && s2 <= s1
    ensures CheatsFrom(path, i, j, d1, s1) <= CheatsFrom(path, i, j, d2, s2)
  {
    if j > 0 {
      CheatsFromMono(path, i, j - 1, d1, d2, s1, s2);
    }
  }

  lemma {:induction false} CheatsUpToMono(path: seq<Pos>, n: nat, d1: nat, d2: nat, s1: nat, s2: nat)
    requires n <= |path| && d1 <= d2 && s2 <= s1
    ensures CheatsUpTo(path, n, d1, s1) <= CheatsUpTo(path, n, d2, s2)
  {
    if n > 0 {
      CheatsUpToMono(path, n - 1, d1, d2, s1, s2);
      CheatsFromMono(path, n - 1, |path| - (n - 1), d1, d2, s1, s2);
    }
  }

  /** A longer cheat or a smaller required saving never counts fewer cheats. */
  lemma CountCheatsMono(path: seq<Pos>, d1: nat, d2: nat, s1: nat, s2: nat)
    requires d1 <= d2 && s2 <= s1
    ensures CountCheats(path, d1, s1) <= CountCheats(path, d2, s2)
  {
    CheatsUpToMono(path, |path|, d1, d2, s1, s2);
  }

  lemma {:induction false} CheatsFromAll(path: seq<Pos>, i: nat, j: nat)
    requires i + j <= |path|
    ensures j > 0 ==> CheatsFrom(path, i, j, 0, 0) >= 1
  {
    if j > 1 {
      CheatsFromAll(path, i, j - 1);
    }
  }

  /** With no saving required, every entry cheats to itself at offset 0. */
  lemma {:induction false} CheatsUpToSelf(path: seq<Pos>, n: nat, duration: nat)
    requires n <= |path|
    ensures CheatsUpTo(path, n, duration, 0) >= n
  {
    if n > 0 {
      CheatsUpToSelf(path, n - 1, duration);
      CheatsFromMono(path, n - 1, |path| - (n - 1), 0, duration, 0, 0);
      CheatsFromAll(path, n - 1, |path| - (n - 1));
    }
  }

  /** `part_a` and `part_b`: the path, then its cheats of up to 2 and up to 20
      steps saving at least 100; `None` when the path is not found within
      `fuel` rounds. */
  method Parts(g: seq<seq<bool>>, start: Pos, end: Pos, fuel: nat) returns (r: Option<(nat, nat)>)
    requires Rect(g)
    ensures r.Some? <==> Follow(g, end, [start], fuel).Some?
    ensures r.Some? ==>
      var path := Follow(g, end, [start], fuel).value;
      TrackPath(g, start, path) && path[|path| - 1] == end
      && r.value == (CountCheats(path, 2, 100), CountCheats(path, 20, 100)) && r.value.0 <= r.value.1
  {
    var path := FindPath(g, start, end, fuel);
    if path.None? {
      return None;
    }
    FollowSound(g, start, end, [start], fuel);
    CountCheatsMono(path.value, 2, 20, 100, 100);
    return Some((CountCheats(path.value, 2, 100), CountCheats(path.value, 20, 100)));
  }
}
