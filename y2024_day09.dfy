/**
 * Year 2024, day 9: a disk map.  The input alternates file spans (ids 0, 1, 2, …)
 * and free spans; a span is an id (none for free space) and a block count.  This
 * module holds the disk the spans describe, block by block, and the reference
 * compaction of part A: every free block, left to right, takes the last file block
 * not yet moved, until the files fill a prefix of the disk.
 */
module Y2024Day09Disk {
  import opened Common

  /** A run of `count` blocks of file `id`, or of free space when `id` is none. */
  datatype Span = Span(id: Option<nat>, count: nat)

  /** The disk, one entry per block. */
  type Disk = seq<Option<nat>>

  function Repeat<T>(x: T, n: nat): (r: seq<T>)
    ensures |r| == n && forall i | 0 <= i < n :: r[i] == x
  {
    seq(n, _ => x)
  }

  /** The blocks the spans describe, left to right. */
  function Blocks(spans: seq<Span>): Disk
  {
    if spans == [] then []
    else Blocks(spans[..|spans| - 1]) + Repeat(spans[|spans| - 1].id, spans[|spans| - 1].count)
  }

  lemma {:induction false} BlocksAppend(a: seq<Span>, b: seq<Span>)
    ensures Blocks(a + b) == Blocks(a) + Blocks(b)
  {
    if b == [] {
      assert a + b == a;
    } else {
      assert (a + b)[..|a + b| - 1] == a + b[..|b| - 1];
      BlocksAppend(a, b[..|b| - 1]);
    }
  }

  lemma BlocksSingle(x: Span)
    ensures Blocks([x]) == Repeat(x.id, x.count)
  {
    assert [x][..0] == [];
  }

  /** The first block of span `j`: the blocks of the spans before it. */
  function Start(spans: seq<Span>, j: nat): nat
    requires j <= |spans|
  {
    if j == 0 then 0 else Start(spans, j - 1) + spans[j - 1].count
  }

  lemma {:induction false} StartBlocks(spans: seq<Span>, j: nat)
    requires j <= |spans|
    ensures Start(spans, j) == |Blocks(spans[..j])|
  {
    if j > 0 {
      StartBlocks(spans, j - 1);
      assert spans[..j][..j - 1] == spans[..j - 1];
    }
  }

  /** Span `j` covers the blocks from its start to the next span's start. */
  lemma BlockAt(spans: seq<Span>, j: nat)
    requires j < |spans|
    ensures Start(spans, j + 1) == Start(spans, j) + spans[j].count <= |Blocks(spans)|
    ensures forall k | Start(spans, j) <= k < Start(spans, j + 1) :: Blocks(spans)[k] == spans[j].id
  {
    assert spans == spans[..j] + [spans[j]] + spans[j + 1..];
    BlocksAppend(spans[..j] + [spans[j]], spans[j + 1..]);
    BlocksAppend(spans[..j], [spans[j]]);
    BlocksSingle(spans[j]);
    StartBlocks(spans, j);
  }

  lemma StartEnd(spans: seq<Span>)
    ensures Start(spans, |spans|) == |Blocks(spans)|
  {
    StartBlocks(spans, |spans|);
    assert spans[..|spans|] == spans;
  }

  // ---------------------------------------------------------------------------
  // Counting file and free blocks

  /** The number of file blocks among the first `p` blocks. */
  function FilesBelow(d: Disk, p: nat): (r: nat)
    requires p <= |d|
    ensures r <= p
  {
    if p == 0 then 0 else FilesBelow(d, p - 1) + (if d[p - 1].Some? then 1 else 0)
  }

  /** The number of free blocks among the first `p` blocks. */
  function FreeBelow(d: Disk, p: nat): nat
    requires p <= |d|
  {
    p - FilesBelow(d, p)
  }

  function FileCount(d: Disk): nat
  {
    FilesBelow(d, |d|)
  }

  lemma {:induction false} FilesBelowMono(d: Disk, p: nat, q: nat)
    requires p <= q <= |d|
    ensures FilesBelow(d, p) <= FilesBelow(d, q) && FreeBelow(d, p) <= FreeBelow(d, q)
  {
    if p < q {
      FilesBelowMono(d, p, q - 1);
    }
  }

  /** Over a stretch of file blocks, every block counts as a file. */
  lemma {:induction false} AllFiles(d: Disk, p: nat, q: nat)
    requires p <= q <= |d| && forall k | p <= k < q :: d[k].Some?
    ensures FilesBelow(d, q) == FilesBelow(d, p) + (q - p)
  {
    if p < q {
      AllFiles(d, p, q - 1);
    }
  }

  /** Over a stretch of free blocks, no block counts as a file. */
  lemma {:induction false} AllFree(d: Disk, p: nat, q: nat)
    requires p <= q <= |d| && forall k | p <= k < q :: d[k].None?
    ensures FilesBelow(d, q) == FilesBelow(d, p)
  {
    if p < q {
      AllFree(d, p, q - 1);
    }
  }

  /** The ids of the file blocks among the first `p` blocks, in disk order. */
  function FilesUpTo(d: Disk, p: nat): (r: seq<nat>)
    requires p <= |d|
    ensures |r| == FilesBelow(d, p)
  {
    if p == 0 then []
    else FilesUpTo(d, p - 1) + (if d[p - 1].Some? then [d[p - 1].value] else [])
  }

  /** The ids of all file blocks, in disk order. */
  function Files(d: Disk): (r: seq<nat>)
    ensures |r| == FileCount(d)
  {
    FilesUpTo(d, |d|)
  }

  lemma {:induction false} FilesUpToPrefix(d: Disk, p: nat, q: nat)
    requires p <= q <= |d|
    ensures FilesBelow(d, p) <= FilesBelow(d, q)
    ensures FilesUpTo(d, p) == FilesUpTo(d, q)[..FilesBelow(d, p)]
  {
    if p < q {
      FilesUpToPrefix(d, p, q - 1);
      FilesBelowMono(d, q - 1, q);
    }
  }

  /** A file block's id sits in `Files` at the number of file blocks before it. */
  lemma FileIndex(d: Disk, p: nat)
    requires p < |d| && d[p].Some?
    ensures FilesBelow(d, p) < FileCount(d) && Files(d)[FilesBelow(d, p)] == d[p].value
  {
    FilesUpToPrefix(d, p + 1, |d|);
  }

  // ---------------------------------------------------------------------------
  // The reference compaction

  /** Block `i` after compaction: a file block stays; the k-th free block takes the
      k-th file block counted from the end. */
  function CompactedAt(d: Disk, i: nat): nat
    requires i < FileCount(d)
  {
    FilesBelowMono(d, i + 1, FileCount(d));
    FilesBelowMono(d, FileCount(d), |d|);
    if d[i].Some? then d[i].value else Files(d)[FileCount(d) - 1 - FreeBelow(d, i)]
  }

  /** The first `i` blocks of the disk after compaction. */
  function CompactedUpTo(d: Disk, i: nat): (r: seq<nat>)
    requires i <= FileCount(d)
    ensures |r| == i
  {
    if i == 0 then [] else CompactedUpTo(d, i - 1) + [CompactedAt(d, i - 1)]
  }

  /** The disk after compaction: as many blocks as there are file blocks. */
  function Compacted(d: Disk): (r: seq<nat>)
    ensures |r| == FileCount(d)
  {
    CompactedUpTo(d, FileCount(d))
  }

  lemma {:induction false} CompactedUpToAt(d: Disk, i: nat, j: nat)
    requires i < j <= FileCount(d)
    ensures CompactedUpTo(d, j)[i] == CompactedAt(d, i)
  {
    if i < j - 1 {
      CompactedUpToAt(d, i, j - 1);
    }
  }

  /** Block `i` of the compacted disk. */
  lemma CompactedIndex(d: Disk, i: nat)
    requires i < FileCount(d)
    ensures Compacted(d)[i] == CompactedAt(d, i)
  {
    CompactedUpToAt(d, i, FileCount(d));
  }

  /** Multiset of `f`'s first `a` and last `b` entries. */
  function Ends(f: seq<nat>, a: nat, b: nat): multiset<nat>
    requires a + b <= |f|
  {
    multiset(f[..a]) + multiset(f[|f| - b..])
  }

  lemma EndsFront(c: seq<nat>, x: nat, f: seq<nat>, a: nat, b: nat)
    requires a + b < |f| && multiset(c) == Ends(f, a, b) && x == f[a]
    ensures multiset(c + [x]) == Ends(f, a + 1, b)
  {
    assert f[..a + 1] == f[..a] + [f[a]];
  }

  lemma EndsBack(c: seq<nat>, x: nat, f: seq<nat>, a: nat, b: nat)
    requires a + b < |f| && multiset(c) == Ends(f, a, b) && x == f[|f| - 1 - b]
    ensures multiset(c + [x]) == Ends(f, a, b + 1)
  {
    assert f[|f| - (b + 1)..] == [f[|f| - 1 - b]] + f[|f| - b..];
  }

  /** `c` places, at each position of a file block, the next file from the front
      of `f`, and at each free position the next file from the back of `f`. */
  ghost predicate Placement(d: Disk, c: seq<nat>, f: seq<nat>)
  {
    && |c| == |f| <= |d|
    && forall j {:trigger c[j]} | 0 <= j < |c| ::
         && (d[j].Some? && FilesBelow(d, j) < |f| ==> c[j] == f[FilesBelow(d, j)])
         && (d[j].None? && FreeBelow(d, j) < |f| ==> c[j] == f[|f| - 1 - FreeBelow(d, j)])
  }

  /** A placement's first `i` entries are the first file blocks and, for the free
      blocks among them, as many of the last file blocks. */
  lemma {:induction false} PlacementPrefix(d: Disk, c: seq<nat>, f: seq<nat>, i: nat)
    requires Placement(d, c, f) && i <= |c|
    ensures FilesBelow(d, i) + FreeBelow(d, i) <= |f|
    ensures multiset(c[..i]) == Ends(f, FilesBelow(d, i), FreeBelow(d, i))
  {
    if i == 0 {
      PlacementEmpty(c, f);
    } else {
      PlacementPrefix(d, c, f, i - 1);
      PlacementStep(d, c, f, i);
    }
  }

  lemma PlacementEmpty(c: seq<nat>, f: seq<nat>)
    ensures multiset(c[..0]) == Ends(f, 0, 0)
  {
    assert c[..0] == [] && f[..0] == [] && f[|f|..] == [];
  }

  lemma PlacementStep(d: Disk, c: seq<nat>, f: seq<nat>, i: nat)
    requires Placement(d, c, f) && 0 < i <= |c|
    requires FilesBelow(d, i - 1) + FreeBelow(d, i - 1) <= |f|
    requires multiset(c[..i - 1]) == Ends(f, FilesBelow(d, i - 1), FreeBelow(d, i - 1))
    ensures FilesBelow(d, i) + FreeBelow(d, i) <= |f|
    ensures multiset(c[..i]) == Ends(f, FilesBelow(d, i), FreeBelow(d, i))
  {
    var a, b := FilesBelow(d, i - 1), FreeBelow(d, i - 1);
    assert c[..i] == c[..i - 1] + [c[i - 1]];
    if d[i - 1].Some? {
      assert FilesBelow(d, i) == a + 1 && FreeBelow(d, i) == b;
      EndsFront(c[..i - 1], c[i - 1], f, a, b);
      assert multiset(c[..i]) == Ends(f, a + 1, b);
    } else {
      assert FilesBelow(d, i) == a && FreeBelow(d, i) == b + 1;
      EndsBack(c[..i - 1], c[i - 1], f, a, b);
      assert multiset(c[..i]) == Ends(f, a, b + 1);
    }
  }

  /** A placement is a permutation. */
  lemma PlacementPermutation(d: Disk, c: seq<nat>, f: seq<nat>)
    requires Placement(d, c, f)
    ensures multiset(c) == multiset(f)
  {
    var n := |c|;
    PlacementPrefix(d, c, f, n);
    assert c[..n] == c;
    var a := FilesBelow(d, n);
    assert f == f[..a] + f[a..];
  }

  /** Compaction moves blocks and loses none: it is a permutation of the file
      blocks. */
  lemma CompactedPermutation(d: Disk)
    ensures multiset(Compacted(d)) == multiset(Files(d))
  {
    var c, f := Compacted(d), Files(d);
    FilesBelowMono(d, FileCount(d), |d|);
    forall j | 0 <= j < |c|
      ensures d[j].Some? && FilesBelow(d, j) < |f| ==> c[j] == f[FilesBelow(d, j)]
      ensures d[j].None? && FreeBelow(d, j) < |f| ==> c[j] == f[|f| - 1 - FreeBelow(d, j)]
    {
      CompactedIndex(d, j);
      if d[j].Some? {
        FileIndex(d, j);
      }
    }
    PlacementPermutation(d, c, f);
  }

  /** A file block already inside the compacted prefix stays where it is. */
  lemma CompactedKeepsFiles(d: Disk, i: nat)
    requires i < FileCount(d) && d[i].Some?
    ensures Compacted(d)[i] == d[i].value
  {
    CompactedIndex(d, i);
  }

  // ---------------------------------------------------------------------------
  // Checksums

  /** Part A's checksum: the sum of position × file id. */
  function Checksum(s: seq<nat>): nat
  {
    if s == [] then 0 else Checksum(s[..|s| - 1]) + (|s| - 1) * s[|s| - 1]
  }

  /** Part B's checksum: the sum of position × file id, free blocks counting 0. */
  function DiskChecksum(d: Disk): nat
  {
    if d == [] then 0
    else DiskChecksum(d[..|d| - 1]) + (|d| - 1) * (match d[|d| - 1] case Some(x) => x case None => 0)
  }
}

/**
 * Part A: the two-pointer compaction.  `l` walks right over the spans, emitting
 * files in place; at a free span, `r` (which walks left over the spans) hands over
 * blocks of the last file still unmoved.  The loop is the iterator the source
 * drives one chunk at a time, with the `l <= r` guard the finding in README adds.
 */
module Y2024Day09Compact {
  import opened Common
  import opened Y2024Day09Disk

  /** One past the last block still owned by span `r`: a file span may have lost
      blocks from its end, a free span is whole. */
  function Back(spans: seq<Span>, input: seq<Span>, r: nat): nat
    requires r < |spans| == |input|
  {
    Start(spans, r) + if spans[r].id.Some? then input[r].count else spans[r].count
  }

  lemma {:induction false} StartMono(spans: seq<Span>, i: nat, j: nat)
    requires i <= j <= |spans|
    ensures Start(spans, i) <= Start(spans, j)
  {
    if i < j {
      StartMono(spans, i, j - 1);
      BlockAt(spans, j - 1);
    }
  }

  lemma StartBound(spans: seq<Span>, j: nat)
    requires j <= |spans|
    ensures Start(spans, j) <= |Blocks(spans)|
  {
    StartMono(spans, j, |spans|);
    StartEnd(spans);
  }

  /** What the iterator has done to its working copy `input` of the spans: ids
      are kept, counts only shrink, and only the spans at `l` and `r` change. */
  ghost predicate Shape(spans: seq<Span>, input: seq<Span>, l: nat, r: nat)
  {
    && |input| == |spans| && l <= r + 1 && r < |spans|
    && (forall j | 0 <= j < |spans| :: input[j].id == spans[j].id && input[j].count <= spans[j].count)
    && (forall j | l < j < r :: input[j].count == spans[j].count)
    && (l < r && spans[l].id.Some? ==> input[l].count == spans[l].count)
    && (l < r && spans[r].id.None? ==> input[r].count == spans[r].count)
  }

  /** Where the output has got to: the blocks of spans before `l`, and the part of
      a free span at `l` already filled. */
  ghost predicate Placed(spans: seq<Span>, input: seq<Span>, l: nat, r: nat, front: nat)
    requires Shape(spans, input, l, r)
  {
    && (l <= r ==> front == Start(spans, l) + if spans[l].id.None? then spans[l].count - input[l].count else 0)
    && (l == r + 1 ==> front == Back(spans, input, r))
    && front <= Back(spans, input, r) <= |Blocks(spans)|
  }

  /** The output is the compacted disk so far, and the free blocks passed are as
      many as the file blocks beyond `back`, which have been moved. */
  ghost predicate Counted(d: Disk, back: nat, out: seq<nat>)
  {
    && |out| <= back <= |d|
    && FreeBelow(d, |out|) + FilesBelow(d, back) == FileCount(d)
    && |out| <= FileCount(d)
    && out == CompactedUpTo(d, |out|)
  }

  /** The state between two chunks. */
  ghost predicate Inv(spans: seq<Span>, input: seq<Span>, l: nat, r: nat, out: seq<nat>)
  {
    && Shape(spans, input, l, r)
    && Placed(spans, input, l, r, |out|)
    && Counted(Blocks(spans), Back(spans, input, r), out)
  }

  lemma {:induction false} CompactedUpToExtend(d: Disk, i: nat, k: nat, x: nat)
    requires i + k <= FileCount(d)
    requires forall j | i <= j < i + k :: CompactedAt(d, j) == x
    ensures CompactedUpTo(d, i + k) == CompactedUpTo(d, i) + Repeat(x, k)
  {
    if k > 0 {
      CompactedUpToExtend(d, i, k - 1, x);
    }
  }

  /** Emitting a stretch of file blocks in place. */
  lemma FileRun(d: Disk, front: nat, back: nat, c: nat, x: nat)
    requires front + c <= back <= |d|
    requires FreeBelow(d, front) + FilesBelow(d, back) == FileCount(d)
    requires forall j | front <= j < front + c :: d[j] == Some(x)
    ensures front + c <= FileCount(d) && FreeBelow(d, front + c) == FreeBelow(d, front)
    ensures CompactedUpTo(d, front + c) == CompactedUpTo(d, front) + Repeat(x, c)
  {
    AllFiles(d, front, front + c);
    FilesBelowMono(d, front + c, back);
    CompactedUpToExtend(d, front, c, x);
  }

  /** Filling a stretch of free blocks with the last unmoved file blocks. */
  lemma FreeRun(d: Disk, front: nat, back: nat, k: nat, x: nat)
    requires front + k <= back - k && back <= |d|
    requires FreeBelow(d, front) + FilesBelow(d, back) == FileCount(d)
    requires forall j | front <= j < front + k :: d[j].None?
    requires forall j | back - k <= j < back :: d[j] == Some(x)
    ensures front + k <= FileCount(d)
    ensures FreeBelow(d, front + k) + FilesBelow(d, back - k) == FileCount(d)
    ensures CompactedUpTo(d, front + k) == CompactedUpTo(d, front) + Repeat(x, k)
  {
    AllFree(d, front, front + k);
    AllFiles(d, back - k, back);
    FilesBelowMono(d, front + k, back - k);
    forall j | front <= j < front + k
      ensures CompactedAt(d, j) == x
    {
      FreeRunAt(d, front, back, k, x, j);
    }
    CompactedUpToExtend(d, front, k, x);
  }

  /** Emitting `c` blocks of file `x` in place keeps the output counted. */
  lemma FileChunk(d: Disk, back: nat, out: seq<nat>, c: nat, x: nat)
    requires Counted(d, back, out) && |out| + c <= back
    requires forall j | |out| <= j < |out| + c :: d[j] == Some(x)
    ensures Counted(d, back, out + Repeat(x, c))
  {
    FileRun(d, |out|, back, c, x);
    assert |out + Repeat(x, c)| == |out| + c;
  }

  /** Filling `k` free blocks with the last `k` unmoved blocks of file `x` keeps the
      output counted, with `back` moved `k` blocks left. */
  lemma FreeChunk(d: Disk, back: nat, out: seq<nat>, k: nat, x: nat)
    requires Counted(d, back, out) && |out| + k <= back - k
    requires forall j | |out| <= j < |out| + k :: d[j].None?
    requires forall j | back - k <= j < back :: d[j] == Some(x)
    ensures Counted(d, back - k, out + Repeat(x, k))
  {
    FreeRun(d, |out|, back, k, x);
    assert |out + Repeat(x, k)| == |out| + k;
  }

  /** The free block `j` of the stretch takes the file block as far before `back`. */
  lemma FreeRunAt(d: Disk, front: nat, back: nat, k: nat, x: nat, j: nat)
    requires front <= j < front + k <= back - k && back <= |d|
    requires FreeBelow(d, front) + FilesBelow(d, back) == FileCount(d)
    requires forall i | front <= i < front + k :: d[i].None?
    requires forall i | back - k <= i < back :: d[i] == Some(x)
    ensures j < FileCount(d) && CompactedAt(d, j) == x
  {
    var m := back - 1 - (j - front);
    AllFree(d, front, j);
    AllFiles(d, m, back);
    FilesBelowMono(d, j + 1, m);
    FileIndex(d, m);
  }

  // ---------------------------------------------------------------------------
  // One lemma per step of the iterator

  lemma InitInv(spans: seq<Span>)
    requires |spans| > 0
    ensures Inv(spans, spans, 0, |spans| - 1, [])
  {
    BlockAt(spans, |spans| - 1);
    StartEnd(spans);
  }

  /** Step 1: `r` passes a free span. */
  lemma SkipStep(spans: seq<Span>, input: seq<Span>, l: nat, r: nat, out: seq<nat>)
    requires Inv(spans, input, l, r, out) && l < r && input[r].id.None?
    ensures Inv(spans, input, l, r - 1, out)
  {
    var d := Blocks(spans);
    BlockAt(spans, r);
    assert Back(spans, input, r - 1) == Start(spans, r);
    AllFree(d, Start(spans, r), Start(spans, r) + spans[r].count);
    StartMono(spans, l + 1, r);
    assert Placed(spans, input, l, r - 1, |out|);
  }

  /** Step 2: a file span at `l` is emitted in place. */
  lemma TakeFile(spans: seq<Span>, input: seq<Span>, l: nat, r: nat, out: seq<nat>)
    requires Inv(spans, input, l, r, out) && l <= r && input[l].id.Some?
    ensures Inv(spans, input, l + 1, r, out + Repeat(input[l].id.value, input[l].count))
  {
    var d := Blocks(spans);
    BlockAt(spans, l);
    if l < r {
      StartMono(spans, l + 1, r);
    }
    FileChunk(d, Back(spans, input, r), out, input[l].count, input[l].id.value);
  }

  /** Step 4: the free span at `l` swallows the whole remaining file at `r`. */
  lemma FillMore(spans: seq<Span>, input: seq<Span>, l: nat, r: nat, out: seq<nat>)
    requires Inv(spans, input, l, r, out) && l < r
    requires input[l].id.None? && input[r].id.Some? && input[l].count > input[r].count
    ensures Inv(spans, input[l := Span(None, input[l].count - input[r].count)], l, r - 1,
                out + Repeat(input[r].id.value, input[r].count))
  {
    var d, input', out' := Blocks(spans), input[l := Span(None, input[l].count - input[r].count)],
      out + Repeat(input[r].id.value, input[r].count);
    var b := input[r].count;
    BlockAt(spans, l);
    BlockAt(spans, r);
    StartMono(spans, l + 1, r);
    FreeChunk(d, Back(spans, input, r), out, b, input[r].id.value);
    assert Shape(spans, input', l, r - 1);
    assert Back(spans, input', r - 1) == Start(spans, r) == Back(spans, input, r) - b;
    assert Placed(spans, input', l, r - 1, |out'|);
    assert Counted(d, Back(spans, input', r - 1), out');
  }

  /** Step 5: the free span at `l` fills up with the end of the file at `r`. */
  lemma FillLess(spans: seq<Span>, input: seq<Span>, l: nat, r: nat, out: seq<nat>)
    requires Inv(spans, input, l, r, out) && l < r
    requires input[l].id.None? && input[r].id.Some? && input[l].count < input[r].count
    ensures Inv(spans, input[r := Span(input[r].id, input[r].count - input[l].count)], l + 1, r,
                out + Repeat(input[r].id.value, input[l].count))
  {
    var d, input', out' := Blocks(spans), input[r := Span(input[r].id, input[r].count - input[l].count)],
      out + Repeat(input[r].id.value, input[l].count);
    var a := input[l].count;
    BlockAt(spans, l);
    BlockAt(spans, r);
    StartMono(spans, l + 1, r);
    FreeChunk(d, Back(spans, input, r), out, a, input[r].id.value);
    assert Shape(spans, input', l + 1, r);
    assert Back(spans, input', r) == Back(spans, input, r) - a;
    assert |out'| == Start(spans, l + 1);
    assert Placed(spans, input', l + 1, r, |out'|);
    assert Counted(d, Back(spans, input', r), out');
  }

  /** Step 6: the free span at `l` and the file at `r` have the same size. */
  lemma FillEqual(spans: seq<Span>, input: seq<Span>, l: nat, r: nat, out: seq<nat>)
    requires Inv(spans, input, l, r, out) && l < r
    requires input[l].id.None? && input[r].id.Some? && input[l].count == input[r].count
    ensures Inv(spans, input, l + 1, r - 1, out + Repeat(input[r].id.value, input[r].count))
  {
    var d, out' := Blocks(spans), out + Repeat(input[r].id.value, input[r].count);
    var b := input[r].count;
    BlockAt(spans, l);
    BlockAt(spans, r);
    StartMono(spans, l + 1, r);
    FreeChunk(d, Back(spans, input, r), out, b, input[r].id.value);
    assert Shape(spans, input, l + 1, r - 1);
    assert Back(spans, input, r - 1) == Start(spans, r) == Back(spans, input, r) - b;
    assert |out'| == Start(spans, l + 1);
    assert Placed(spans, input, l + 1, r - 1, |out'|);
    assert Counted(d, Back(spans, input, r - 1), out');
  }

  /** Step 3: once `l` has reached `r`, everything emitted is the compacted disk. */
  lemma Finish(spans: seq<Span>, input: seq<Span>, l: nat, r: nat, out: seq<nat>)
    requires Inv(spans, input, l, r, out) && r <= l && !(l <= r && input[l].id.Some?)
    ensures out == Compacted(Blocks(spans))
  {
    var d := Blocks(spans);
    if l == r {
      BlockAt(spans, l);
      AllFree(d, |out|, Back(spans, input, r));
    }
  }

  // ---------------------------------------------------------------------------
  // The iterator

  /** Step 1 of each chunk: move `r` left past free spans, but not past `l`. */
  method SkipFree(spans: seq<Span>, input: seq<Span>, l: nat, r: nat, ghost out: seq<nat>)
    returns (r': nat)
    requires Inv(spans, input, l, r, out)
    ensures Inv(spans, input, l, r', out) && r' <= r
    ensures r' <= l || input[r'].id.Some?
  {
    r' := r;
    while r' > l && input[r'].id.None?
      invariant Inv(spans, input, l, r', out) && r' <= r
    {
      SkipStep(spans, input, l, r', out);
      r' := r' - 1;
    }
  }

  /** The blocks part A's iterator yields: the compacted disk.  Each turn of the
      loop is one call of the source's iterator closure, yielding one chunk. */
  method CompactA(spans: seq<Span>) returns (out: seq<nat>)
    requires |spans| > 0
    ensures out == Compacted(Blocks(spans))
  {
    var input := spans;
    var l: nat, r: nat := 0, |spans| - 1;
    out := [];
    InitInv(spans);
    var done := false;
    while !done
      invariant !done ==> Inv(spans, input, l, r, out)
      invariant done ==> out == Compacted(Blocks(spans))
      decreases !done, |spans| - l + r
    {
      done, input, l, r, out := Turn(spans, input, l, r, out);
    }
  }

  /** One call of the iterator closure: skip the free spans at the back, then
      emit the file at the front, or fill the free span at the front from the
      file at the back, or stop when the cursors meet. */
  method Turn(spans: seq<Span>, input: seq<Span>, l: nat, r: nat, out: seq<nat>)
    returns (done: bool, input': seq<Span>, l': nat, r': nat, out': seq<nat>)
    requires Inv(spans, input, l, r, out)
    ensures !done ==> Inv(spans, input', l', r', out') && |spans| - l' + r' < |spans| - l + r
    ensures done ==> out' == Compacted(Blocks(spans))
  {
    done, input', l' := false, input, l;
    r' := SkipFree(spans, input, l, r, out);
    if l <= r' && input[l].id.Some? {
      TakeFile(spans, input, l, r', out);
      out' := out + Repeat(input[l].id.value, input[l].count);
      l' := l + 1;
    } else if l >= r' {
      Finish(spans, input, l, r', out);
      out', done := out, true;
    } else {
      input', l', r', out' := FillFront(spans, input, l, r', out);
    }
  }

  /** The free span at the front takes blocks from the file at the back: all of
      them if they fit, else as many as it has room for. */
  method FillFront(spans: seq<Span>, input: seq<Span>, l: nat, r: nat, out: seq<nat>)
    returns (input': seq<Span>, l': nat, r': nat, out': seq<nat>)
    requires Inv(spans, input, l, r, out) && l < r
    requires input[l].id.None? && input[r].id.Some?
    ensures Inv(spans, input', l', r', out') && l <= l' && r' <= r && l' - l + r - r' > 0
  {
    input', l', r' := input, l, r;
    if input[l].count > input[r].count {
      FillMore(spans, input, l, r, out);
      out' := out + Repeat(input[r].id.value, input[r].count);
      input' := input[l := Span(None, input[l].count - input[r].count)];
      r' := r - 1;
    } else if input[l].count < input[r].count {
      FillLess(spans, input, l, r, out);
      out' := out + Repeat(input[r].id.value, input[l].count);
      input' := input[r := Span(input[r].id, input[r].count - input[l].count)];
      l' := l + 1;
    } else {
      FillEqual(spans, input, l, r, out);
      out' := out + Repeat(input[r].id.value, input[r].count);
      l', r' := l + 1, r - 1;
    }
  }

  /** Part A: the checksum of the compacted disk. */
  method PartA(spans: seq<Span>) returns (checksum: nat)
    requires |spans| > 0
    ensures checksum == Checksum(Compacted(Blocks(spans)))
  {
    var out := CompactA(spans);
    checksum := Checksum(out);
  }
}

/** The puzzle input: one decimal digit per span, alternating file and free. */
module Y2024Day09Input {
  import opened Common
  import opened Y2024Day09Disk

  /** The values of the decimal digits of `s`, other characters skipped. */
  function DigitValues(s: string): (r: seq<nat>)
    ensures forall k | 0 <= k < |r| :: r[k] <= 9
  {
    if s == [] then []
    else
      var c := s[|s| - 1];
      DigitValues(s[..|s| - 1]) + if IsDigit(c) then [c as int - '0' as int] else []
  }

  /** The id of span `k` of a parsed disk: file `k / 2` when `k` is even, free space when it is odd. */
  function IdAt(k: nat): Option<nat>
  {
    if k % 2 == 0 then Some(k / 2) else None
  }

  /** Every span has the id of its place. */
  predicate Alternating(spans: seq<Span>)
  {
    forall k {:trigger IdAt(k)} | 0 <= k < |spans| :: spans[k].id == IdAt(k)
  }

  /** Pairs the ids 0, none, 1, none, … with the digits of the input. */
  function Parse(s: string): (r: seq<Span>)
    ensures Alternating(r)
    ensures |r| == |DigitValues(s)| && forall k | 0 <= k < |r| :: r[k].count <= 9
  {
    var v := DigitValues(s);
    seq(|v|, k requires 0 <= k < |v| => Span(IdAt(k), v[k]))
  }

  /** A disk map written back as digits. */
  function Render(spans: seq<Span>): (r: string)
    requires forall k | 0 <= k < |spans| :: spans[k].count <= 9
    ensures |r| == |spans| && forall k | 0 <= k < |r| :: IsDigit(r[k])
  {
    seq(|spans|, k requires 0 <= k < |spans| => '0' + spans[k].count as char)
  }

  lemma {:induction false} DigitValuesRender(spans: seq<Span>)
    requires forall k | 0 <= k < |spans| :: spans[k].count <= 9
    ensures DigitValues(Render(spans)) == seq(|spans|, k requires 0 <= k < |spans| => spans[k].count)
  {
    if spans != [] {
      var init := spans[..|spans| - 1];
      DigitValuesRender(init);
      assert Render(spans)[..|spans| - 1] == Render(init);
    }
  }

  /** Parsing undoes rendering. */
  lemma ParseRender(spans: seq<Span>)
    requires Alternating(spans) && forall k | 0 <= k < |spans| :: spans[k].count <= 9
    ensures Parse(Render(spans)) == spans
  {
    DigitValuesRender(spans);
  }

  /** A trailing character that is not a digit, such as the final newline, is
      skipped. */
  lemma ParseSkips(s: string, c: char)
    requires !IsDigit(c)
    ensures Parse(s + [c]) == Parse(s)
  {
    assert (s + [c])[..|s|] == s;
  }
}

/** Part A exactly as the loop is written: the file test runs before the
    `l >= r` test and without a bound on `l`. */
module Y2024Day09AsWritten {
  import opened Common
  import opened Y2024Day09Disk
  import opened Y2024Day09Input
  import opened Y2024Day09Move

  /** Step one: move `r` left over free spans while it is right of `l`. */
  function SkipBack(input: seq<Span>, l: nat, r: nat): (r': nat)
    requires r < |input|
    ensures r' <= r && (r' > l ==> input[r'].id.Some?)
    ensures r' < r ==> r' >= l && forall k | r' < k <= r :: input[k].id.None?
  {
    if r > l && input[r].id.None? then SkipBack(input, l, r - 1) else r
  }

  /** The blocks the loop emits from state (`input`, `l`, `r`) onwards after
      `out`; `None` where it indexes past the end of the spans. */
  function AsWrittenA(input: seq<Span>, l: nat, r: nat, out: seq<nat>): (res: Option<seq<nat>>)
    requires r < |input| && l <= |input|
    ensures res.Some? ==> |out| <= |res.value| && res.value[..|out|] == out
    decreases |input| - l + r
  {
    var r := SkipBack(input, l, r);
    if l >= |input| then None
    else if input[l].id.Some? then
      AsWrittenA(input, l + 1, r, out + Repeat(input[l].id.value, input[l].count))
    else if l >= r then Some(out)
    else if input[l].count > input[r].count then
      AsWrittenA(input[l := Span(None, input[l].count - input[r].count)], l, r - 1,
                 out + Repeat(input[r].id.value, input[r].count))
    else if input[l].count < input[r].count then
      AsWrittenA(input[r := Span(input[r].id, input[r].count - input[l].count)], l + 1, r,
                 out + Repeat(input[r].id.value, input[l].count))
    else
      AsWrittenA(input, l + 1, r - 1, out + Repeat(input[r].id.value, input[r].count))
  }

  lemma Parse1110()
    ensures Parse("1110") == [Span(Some(0), 1), Span(None, 1), Span(Some(1), 1), Span(None, 0)]
  {
    assert DigitValues("1110") == [1, 1, 1, 0] by {
      assert "1110"[..3] == "111" && "111"[..2] == "11" && "11"[..1] == "1" && "1"[..0] == "";
    }
  }

  lemma Trace1110(s: seq<Span>)
    requires s == [Span(Some(0), 1), Span(None, 1), Span(Some(1), 1), Span(None, 0)]
    ensures AsWrittenA(s, 0, 3, []) == Some([0, 1, 1])
  {
    var o0: seq<nat>, o1: seq<nat>, o2: seq<nat>, o3: seq<nat> := [], [0], [0, 1], [0, 1, 1];
    assert o0 + Repeat(0, 1) == o1 && o1 + Repeat(1, 1) == o2 && o2 + Repeat(1, 1) == o3;
    assert SkipBack(s, 0, 3) == 2 && SkipBack(s, 1, 2) == 2 && SkipBack(s, 2, 1) == 1 && SkipBack(s, 3, 1) == 1;
    assert AsWrittenA(s, 3, 1, o3) == Some(o3);
    assert AsWrittenA(s, 2, 1, o2) == Some(o3);
    assert AsWrittenA(s, 1, 2, o1) == Some(o3);
  }

  lemma Blocks1110(s: seq<Span>)
    requires s == [Span(Some(0), 1), Span(None, 1), Span(Some(1), 1), Span(None, 0)]
    ensures Blocks(s) == [Some(0), None, Some(1)]
  {
    var s3 := [Span(Some(0), 1), Span(None, 1), Span(Some(1), 1)];
    assert s[..3] == s3;
    assert s3[..2][..1][..0] == [] && s3[..2][..1] == [Span(Some(0), 1)];
    assert Repeat(Some(0), 1) == [Some(0)] && Repeat<Option<nat>>(None, 1) == [None] && Repeat(Some(1), 1) == [Some(1)];
    assert Blocks(s3[..2][..1]) == [Some(0)];
    assert Blocks(s3[..2]) == [Some(0), None];
  }

  lemma Compacted1110(d: Disk)
    requires d == [Some(0), None, Some(1)]
    ensures Compacted(d) == [0, 1]
  {
    assert FilesBelow(d, 1) == 1 && FilesBelow(d, 2) == 1 && FilesBelow(d, 3) == 2;
    assert FilesUpTo(d, 1) == [0] && FilesUpTo(d, 2) == [0] && FilesUpTo(d, 3) == [0, 1];
    assert FreeBelow(d, 1) == 0;
    assert CompactedUpTo(d, 2) == [0, 1];
  }

  /** When a free span and the file right after it are equally long, the
      loop emits that file twice: on "1110" it yields 0, 1, 1 (checksum 3)
      where the compacted disk is 0, 1 (checksum 1). */
  lemma EqualRunEmittedTwice()
    ensures Parse("1110") == [Span(Some(0), 1), Span(None, 1), Span(Some(1), 1), Span(None, 0)]
    ensures AsWrittenA(Parse("1110"), 0, 3, []) == Some([0, 1, 1]) && Checksum([0, 1, 1]) == 3
    ensures Compacted(Blocks(Parse("1110"))) == [0, 1] && Checksum([0, 1]) == 1
  {
    Parse1110();
    Trace1110(Parse("1110"));
    Blocks1110(Parse("1110"));
    Compacted1110(Blocks(Parse("1110")));
    assert [0, 1, 1][..2] == [0, 1] && [0, 1][..1] == [0] && [0][..0] == [];
  }

  lemma Parse112()
    ensures Parse("112") == [Span(Some(0), 1), Span(None, 1), Span(Some(1), 2)]
  {
    assert DigitValues("112") == [1, 1, 2] by {
      assert "112"[..2] == "11" && "11"[..1] == "1" && "1"[..0] == "";
    }
  }

  lemma Trace112(s: seq<Span>)
    requires s == [Span(Some(0), 1), Span(None, 1), Span(Some(1), 2)]
    ensures AsWrittenA(s, 0, 2, []) == None
  {
    var s' := s[2 := Span(Some(1), 1)];
    var o0: seq<nat>, o1: seq<nat>, o2: seq<nat>, o3: seq<nat> := [], [0], [0, 1], [0, 1, 1];
    assert o0 + Repeat(0, 1) == o1 && o1 + Repeat(1, 1) == o2 && o2 + Repeat(1, 1) == o3;
    assert SkipBack(s, 0, 2) == 2 && SkipBack(s, 1, 2) == 2 && SkipBack(s', 2, 2) == 2 && SkipBack(s', 3, 2) == 2;
    assert AsWrittenA(s', 3, 2, o3) == None;
    assert AsWrittenA(s', 2, 2, o2) == None;
    assert AsWrittenA(s, 1, 2, o1) == None;
  }

  lemma Blocks112(s: seq<Span>)
    requires s == [Span(Some(0), 1), Span(None, 1), Span(Some(1), 2)]
    ensures Blocks(s) == [Some(0), None, Some(1), Some(1)]
  {
    assert s[..2][..1][..0] == [] && s[..2][..1] == [Span(Some(0), 1)];
    assert Repeat(Some(0), 1) == [Some(0)] && Repeat<Option<nat>>(None, 1) == [None] && Repeat(Some(1), 2) == [Some(1), Some(1)];
    assert Blocks(s[..2][..1]) == [Some(0)];
    assert Blocks(s[..2]) == [Some(0), None];
  }

  lemma Compacted112(d: Disk)
    requires d == [Some(0), None, Some(1), Some(1)]
    ensures Compacted(d) == [0, 1, 1]
  {
    assert FilesBelow(d, 2) == 1 && FilesBelow(d, 4) == 3;
    assert FilesUpTo(d, 2) == [0] && FilesUpTo(d, 4) == [0, 1, 1];
    assert FreeBelow(d, 1) == 0 && FreeBelow(d, 2) == 1;
    assert CompactedUpTo(d, 1) == [0] && CompactedUpTo(d, 2) == [0, 1];
    assert CompactedUpTo(d, 3) == [0, 1, 1];
  }

  /** When the last file is only partly moved, the loop steps past the end
      of the spans: on "112" it fails, where the compacted disk is 0, 1, 1. */
  lemma LastFileIndexedPastEnd()
    ensures Parse("112") == [Span(Some(0), 1), Span(None, 1), Span(Some(1), 2)]
    ensures AsWrittenA(Parse("112"), 0, 2, []) == None
    ensures Compacted(Blocks(Parse("112"))) == [0, 1, 1]
  {
    Parse112();
    Trace112(Parse("112"));
    Blocks112(Parse("112"));
    Compacted112(Blocks(Parse("112")));
  }

  /** Part B's inner loop: `r` steps left over free spans; `None` where it
      would step below span 0. */
  function SkipFreeB(input: seq<Span>, r: nat): (res: Option<nat>)
    requires r < |input|
    ensures res.Some? ==> res.value <= r && input[res.value].id.Some?
    ensures res.None? ==> forall k | 0 <= k <= r :: input[k].id.None?
  {
    if input[r].id.Some? then Some(r)
    else if r == 0 then None
    else SkipFreeB(input, r - 1)
  }

  /** One turn of part B's outer loop as written: the next spans and `r`, or
      `None` where `r` would drop below 0.  Nothing stops the turn that
      starts from the first file. */
  function AsWrittenTurnB(input: seq<Span>, r: nat): (res: Option<(seq<Span>, nat)>)
    requires 0 < r < |input|
    ensures res.Some? ==> res.value.1 <= r < |res.value.0|
  {
    match SkipFreeB(input, r)
    case None => None
    case Some(k) =>
      var fit := FindFit(input, input[k].count);
      if fit.Some? && fit.value < k then Some((Move(input, fit.value, k), k))
      else if k == 0 then None
      else Some((input, k - 1))
  }

  /** On "11" the inner loop stops at the first file and the turn then steps
      `r` below 0, although the disk is already settled. */
  lemma FirstFileUnderflows()
    ensures Parse("11") == [Span(Some(0), 1), Span(None, 1)]
    ensures AsWrittenTurnB(Parse("11"), 1) == None
    ensures Settled(Parse("11"))
  {
    assert DigitValues("11") == [1, 1] by {
      assert "11"[..1] == "1" && "1"[..0] == "";
    }
    var s := [Span(Some(0), 1), Span(None, 1)];
    assert IdAt(0) == Some(0) && IdAt(1) == None;
    assert Parse("11") == s;
    assert SkipFreeB(s, 1) == Some(0);
    assert FindFit(s[1..], 1) == Some(0);
    assert FindFit(s, 1) == Some(1);
  }
}

/**
 * Part B: whole files, tried once each from the right, move to the leftmost
 * free span that holds them; the span is split and the file's old place
 * becomes free.  Free spans are never merged.
 */
module Y2024Day09Move {
  import opened Common
  import opened Y2024Day09Disk
  import opened Y2024Day09Input

  /** Span `sp` is free and holds at least `c` blocks. */
  predicate Fits(sp: Span, c: nat)
  {
    sp.id.None? && sp.count >= c
  }

  /** The leftmost span that fits `c` blocks. */
  function FindFit(input: seq<Span>, c: nat): (r: Option<nat>)
    ensures r.Some? ==> r.value < |input| && Fits(input[r.value], c)
    ensures r.Some? ==> forall q | 0 <= q < r.value :: !Fits(input[q], c)
    ensures r.None? ==> forall q | 0 <= q < |input| :: !Fits(input[q], c)
  {
    if input == [] then None
    else if Fits(input[0], c) then Some(0)
    else match FindFit(input[1..], c)
      case None => None
      case Some(k) => Some(k + 1)
  }

  /** No free span left of span `j` holds it. */
  ghost predicate NoFitLeft(input: seq<Span>, j: nat)
    requires j < |input|
  {
    forall q | 0 <= q < j :: !Fits(input[q], input[j].count)
  }

  /** Every file right of span `r` stays where it is. */
  ghost predicate DoneAfter(input: seq<Span>, r: nat)
  {
    forall j | r < j < |input| && input[j].id.Some? :: NoFitLeft(input, j)
  }

  /** The file at `r` goes to the free span at `pos`, which keeps what is left
      of it; the file's old place becomes free. */
  function Move(input: seq<Span>, pos: nat, r: nat): (m: seq<Span>)
    requires pos < r < |input| && input[r].id.Some? && Fits(input[pos], input[r].count)
    ensures |m| == |input| + 1
  {
    input[..pos] + [input[r], Span(None, input[pos].count - input[r].count)]
      + input[pos + 1..r] + [Span(None, input[r].count)] + input[r + 1..]
  }

  lemma MoveIndex(input: seq<Span>, pos: nat, r: nat)
    requires pos < r < |input| && input[r].id.Some? && Fits(input[pos], input[r].count)
    ensures var m := Move(input, pos, r);
      && (forall q | 0 <= q < pos :: m[q] == input[q])
      && m[pos] == input[r] && m[pos + 1] == Span(None, input[pos].count - input[r].count)
      && (forall q | pos + 2 <= q <= r :: m[q] == input[q - 1])
      && m[r + 1] == Span(None, input[r].count)
      && (forall q | r + 2 <= q < |m| :: m[q] == input[q - 1])
  {
  }

  /** Weighs the files of `s` by their positions, counted from `base`. */
  function FileWeight(s: seq<Span>, base: nat): nat
  {
    if s == [] then 0
    else FileWeight(s[..|s| - 1], base) + if s[|s| - 1].id.Some? then base + |s| - 1 else 0
  }

  lemma {:induction false} FileWeightAppend(a: seq<Span>, b: seq<Span>, base: nat)
    ensures FileWeight(a + b, base) == FileWeight(a, base) + FileWeight(b, base + |a|)
  {
    if b == [] {
      assert a + b == a;
    } else {
      assert (a + b)[..|a + b| - 1] == a + b[..|b| - 1];
      FileWeightAppend(a, b[..|b| - 1], base);
    }
  }

  lemma {:induction false} FileWeightShift(s: seq<Span>, base: nat)
    ensures FileWeight(s, base + 1) <= FileWeight(s, base) + |s|
  {
    if s != [] {
      FileWeightShift(s[..|s| - 1], base);
    }
  }

  /** A move lowers the weight of the spans up to `r`: the loop ends. */
  lemma MoveLowersWeight(input: seq<Span>, pos: nat, r: nat)
    requires pos < r < |input| && input[r].id.Some? && Fits(input[pos], input[r].count)
    ensures FileWeight(Move(input, pos, r)[..r + 1], 0) < FileWeight(input[..r + 1], 0)
  {
    var x, y := input[..pos], input[pos + 1..r];
    var f, g := input[r], Span(None, input[pos].count - input[r].count);
    assert input[..r + 1] == x + [input[pos]] + y + [f];
    assert Move(input, pos, r)[..r + 1] == x + [f, g] + y;
    FileWeightAppend(x + [input[pos]] + y, [f], 0);
    FileWeightAppend(x + [input[pos]], y, 0);
    FileWeightAppend(x, [input[pos]], 0);
    FileWeightAppend(x + [f, g], y, 0);
    FileWeightAppend(x, [f, g], 0);
    assert [f, g][..1] == [f] && [f][..0] == [];
    assert [input[pos]][..0] == [];
    FileWeightShift(y, pos + 1);
  }

  /** The file spans, as a multiset. */
  function FileSpans(s: seq<Span>): multiset<Span>
  {
    if s == [] then multiset{}
    else FileSpans(s[..|s| - 1]) + if s[|s| - 1].id.Some? then multiset{s[|s| - 1]} else multiset{}
  }

  lemma {:induction false} FileSpansAppend(a: seq<Span>, b: seq<Span>)
    ensures FileSpans(a + b) == FileSpans(a) + FileSpans(b)
  {
    if b == [] {
      assert a + b == a;
    } else {
      assert (a + b)[..|a + b| - 1] == a + b[..|b| - 1];
      FileSpansAppend(a, b[..|b| - 1]);
    }
  }

  lemma FileSpansSplit(x: seq<Span>, a: seq<Span>, y: seq<Span>, b: seq<Span>, z: seq<Span>)
    ensures FileSpans(x + a + y + b + z) == FileSpans(x) + FileSpans(a) + FileSpans(y) + FileSpans(b) + FileSpans(z)
  {
    FileSpansAppend(x + a + y + b, z);
    FileSpansAppend(x + a + y, b);
    FileSpansAppend(x + a, y);
    FileSpansAppend(x, a);
  }

  lemma SplitAround(input: seq<Span>, pos: nat, r: nat)
    requires pos < r < |input|
    ensures input == input[..pos] + [input[pos]] + input[pos + 1..r] + [input[r]] + input[r + 1..]
  {
  }

  lemma FileSpansOne(x: Span)
    ensures FileSpans([x]) == if x.id.Some? then multiset{x} else multiset{}
  {
    assert [x][..0] == [];
  }

  lemma BlocksSplit(x: seq<Span>, a: seq<Span>, y: seq<Span>, b: seq<Span>, z: seq<Span>)
    ensures |Blocks(x + a + y + b + z)| == |Blocks(x)| + |Blocks(a)| + |Blocks(y)| + |Blocks(b)| + |Blocks(z)|
  {
    BlocksAppend(x + a + y + b, z);
    BlocksAppend(x + a + y, b);
    BlocksAppend(x + a, y);
    BlocksAppend(x, a);
  }

  /** Swapping a file `f` into free span `e` (leaving `g`) and freeing its
      old place (as `h`) keeps the file spans. */
  lemma SwapKeepsFiles(x: seq<Span>, e: Span, y: seq<Span>, f: Span, z: seq<Span>, g: Span, h: Span,
                        a: seq<Span>, b: seq<Span>)
    requires e.id.None? && g.id.None? && h.id.None?
    requires a == x + [e] + y + [f] + z && b == x + [f, g] + y + [h] + z
    ensures FileSpans(b) == FileSpans(a)
  {
    FileSpansSplit(x, [e], y, [f], z);
    FileSpansSplit(x, [f, g], y, [h], z);
    assert [f, g] == [f] + [g];
    FileSpansAppend([f], [g]);
    FileSpansOne(e);
    FileSpansOne(f);
    FileSpansOne(g);
    FileSpansOne(h);
  }

  /** The same swap keeps the number of blocks when `g` and `h` together
      are as long as `e`. */
  lemma SwapKeepsSize(x: seq<Span>, e: Span, y: seq<Span>, f: Span, z: seq<Span>, g: Span, h: Span,
                       a: seq<Span>, b: seq<Span>)
    requires g.count + h.count == e.count && h.count == f.count
    requires a == x + [e] + y + [f] + z && b == x + [f, g] + y + [h] + z
    ensures |Blocks(b)| == |Blocks(a)|
  {
    BlocksSplit(x, [e], y, [f], z);
    BlocksSplit(x, [f, g], y, [h], z);
    BlocksAppend([f], [g]);
    assert [f] + [g] == [f, g];
    BlocksSingle(e);
    BlocksSingle(f);
    BlocksSingle(g);
    BlocksSingle(h);
  }

  /** A move keeps every file whole. */
  lemma MoveKeepsFiles(input: seq<Span>, pos: nat, r: nat)
    requires pos < r < |input| && input[r].id.Some? && Fits(input[pos], input[r].count)
    ensures FileSpans(Move(input, pos, r)) == FileSpans(input)
  {
    SplitAround(input, pos, r);
    SwapKeepsFiles(input[..pos], input[pos], input[pos + 1..r], input[r], input[r + 1..],
                   Span(None, input[pos].count - input[r].count), Span(None, input[r].count),
                   input, Move(input, pos, r));
  }

  /** A move keeps the size of the disk. */
  lemma MoveKeepsSize(input: seq<Span>, pos: nat, r: nat)
    requires pos < r < |input| && input[r].id.Some? && Fits(input[pos], input[r].count)
    ensures |Blocks(Move(input, pos, r))| == |Blocks(input)|
  {
    SplitAround(input, pos, r);
    SwapKeepsSize(input[..pos], input[pos], input[pos + 1..r], input[r], input[r + 1..],
                  Span(None, input[pos].count - input[r].count), Span(None, input[r].count),
                  input, Move(input, pos, r));
  }

  /** Files already tried stay put after a move: the span the file leaves and
      what remains of the span it enters are no larger than that span was. */
  lemma MoveKeepsDone(input: seq<Span>, pos: nat, r: nat)
    requires pos < r < |input| && input[r].id.Some? && Fits(input[pos], input[r].count)
    requires DoneAfter(input, r)
    ensures DoneAfter(Move(input, pos, r), r)
  {
    var m := Move(input, pos, r);
    MoveIndex(input, pos, r);
    forall j | r < j < |m| && m[j].id.Some?
      ensures NoFitLeft(m, j)
    {
      assert j >= r + 2 && m[j] == input[j - 1];
      assert NoFitLeft(input, j - 1);
      assert !Fits(input[pos], input[j - 1].count);
      forall q | 0 <= q < j
        ensures !Fits(m[q], m[j].count)
      {
        if q < pos {
          assert m[q] == input[q];
        } else if q == pos + 1 || q == r + 1 {
        } else if pos + 2 <= q {
          assert m[q] == input[q - 1];
        }
      }
    }
  }

  /** No file could move left: every free span left of a file is shorter. */
  ghost predicate Settled(s: seq<Span>)
  {
    forall q, j | 0 <= q < j < |s| && s[q].id.None? && s[j].id.Some? :: s[q].count < s[j].count
  }

  /** On a settled disk the search never lands left of the file, so a second
      pass over it moves nothing. */
  lemma SettledStays(s: seq<Span>, j: nat)
    requires Settled(s) && j < |s| && s[j].id.Some?
    ensures FindFit(s, s[j].count).None? || FindFit(s, s[j].count).value > j
  {
  }

  /** A move keeps the loop's invariant and lowers its measure. */
  lemma MoveStep(spans: seq<Span>, input: seq<Span>, pos: nat, r: nat)
    requires pos < r < |input| && input[r].id.Some? && Fits(input[pos], input[r].count)
    requires |spans| > 0 && spans[0].id.Some? && input[0] == spans[0]
    requires FileSpans(input) == FileSpans(spans) && |Blocks(input)| == |Blocks(spans)|
    requires DoneAfter(input, r)
    ensures var m := Move(input, pos, r);
      && m[0] == spans[0] && FileSpans(m) == FileSpans(spans) && |Blocks(m)| == |Blocks(spans)|
      && DoneAfter(m, r) && FileWeight(m[..r + 1], 0) < FileWeight(input[..r + 1], 0)
  {
    MoveLowersWeight(input, pos, r);
    MoveKeepsFiles(input, pos, r);
    MoveKeepsSize(input, pos, r);
    MoveKeepsDone(input, pos, r);
    MoveIndex(input, pos, r);
  }

  /** Stepping `r` past a free span or past a file with no fit to its left
      keeps every file right of `r` in place. */
  lemma PassStep(input: seq<Span>, r: nat)
    requires 0 < r < |input| && DoneAfter(input, r)
    requires input[r].id.None? || FindFit(input, input[r].count).None? || FindFit(input, input[r].count).value > r
    ensures DoneAfter(input, r - 1)
  {
    if input[r].id.Some? {
      assert NoFitLeft(input, r);
    }
  }

  lemma DoneSettled(s: seq<Span>)
    requires |s| > 0 && s[0].id.Some? && DoneAfter(s, 0)
    ensures Settled(s)
  {
    forall q, j | 0 <= q < j < |s| && s[q].id.None? && s[j].id.Some?
      ensures s[q].count < s[j].count
    {
      assert NoFitLeft(s, j);
    }
  }

  // ---------------------------------------------------------------------
  // The reference order: each file once, by decreasing id

  /** The first span holding file `id`. */
  function Locate(s: seq<Span>, id: nat): (r: Option<nat>)
    ensures r.Some? ==> r.value < |s| && s[r.value].id == Some(id)
    ensures r.None? ==> forall j | 0 <= j < |s| :: s[j].id != Some(id)
  {
    if s == [] then None
    else if s[|s| - 1].id == Some(id) && Locate(s[..|s| - 1], id).None? then Some(|s| - 1)
    else Locate(s[..|s| - 1], id)
  }

  /** File `id` tries once to move to the leftmost free span left of it that holds it. */
  function Step(s: seq<Span>, id: nat): seq<Span>
  {
    match Locate(s, id)
    case None => s
    case Some(j) =>
      match FindFit(s[..j], s[j].count)
      case None => s
      case Some(pos) => Move(s, pos, j)
  }

  /**
   * The whole-file compaction as the puzzle states it: files `id`, `id - 1`,
   * …, 1 each try once, in that order, to move to the leftmost free span
   * left of them that holds them.
   */
  function ByIds(s: seq<Span>, id: nat): seq<Span>
    decreases id
  {
    if id == 0 then s else ByIds(Step(s, id), id - 1)
  }

  /** The leftmost fit left of `j` is the leftmost fit overall, when that lies left of `j`. */
  lemma FindFitPrefix(s: seq<Span>, c: nat, j: nat)
    requires j <= |s|
    ensures FindFit(s[..j], c) == if FindFit(s, c).Some? && FindFit(s, c).value < j then FindFit(s, c) else None
  {
    var f, g := FindFit(s, c), FindFit(s[..j], c);
    if g.Some? {
      assert Fits(s[g.value], c);
    }
    if f.Some? && f.value < j {
      assert Fits(s[..j][f.value], c);
    }
  }

  /** Where a span ends up after a move into free span `pos`: later spans shift right by one. */
  function Shift(x: nat, pos: nat): nat
  {
    if x < pos then x else x + 1
  }

  /**
   * The loop's state against the reference: `where[i]` is the one place of
   * file `i`; the files 0..=k, still to be tried, lie in id order at or
   * left of `r`; and every file tried already that lies at or left of `r`
   * has no free span left of it that holds it.
   */
  ghost predicate Track(input: seq<Span>, r: nat, k: nat, where: seq<nat>)
  {
    && r < |input| && k < |where| && input[0].id == Some(0)
    && (forall i | 0 <= i < |where| :: where[i] < |input| && input[where[i]].id == Some(i))
    && (forall j | 0 <= j < |input| && input[j].id.Some? :: input[j].id.value < |where| && where[input[j].id.value] == j)
    && (forall i | 0 < i <= k :: where[i - 1] < where[i])
    && where[k] <= r
    && (forall i | k < i < |where| && where[i] <= r :: NoFitLeft(input, where[i]))
  }

  /** The parsed disk: file `i` at span `2 i`, the last file the last to try. */
  lemma TrackInit(spans: seq<Span>) returns (where: seq<nat>)
    requires |spans| > 0 && Alternating(spans)
    ensures Track(spans, |spans| - 1, (|spans| - 1) / 2, where)
  {
    where := seq((|spans| - 1) / 2 + 1, i => 2 * i);
    forall i | 0 <= i < |where|
      ensures where[i] < |spans| && spans[where[i]].id == Some(i)
    {
      assert spans[2 * i].id == IdAt(2 * i);
    }
    forall j | 0 <= j < |spans| && spans[j].id.Some?
      ensures spans[j].id.value < |where| && where[spans[j].id.value] == j
    {
      assert spans[j].id == IdAt(j);
      assert j % 2 == 0;
    }
  }

  lemma TrackLocate(input: seq<Span>, r: nat, k: nat, where: seq<nat>, i: nat)
    requires Track(input, r, k, where) && i < |where|
    ensures Locate(input, i) == Some(where[i])
  {
  }

  /** Stepping `r` left over a span that is not file `k`. */
  lemma TrackLower(input: seq<Span>, r: nat, k: nat, where: seq<nat>)
    requires Track(input, r, k, where) && r > 0 && where[k] != r
    ensures Track(input, r - 1, k, where)
  {
  }

  /** Stepping `r` left over file `k`, with file `k - 1` next. */
  lemma TrackNext(input: seq<Span>, r: nat, k: nat, where: seq<nat>)
    requires Track(input, r, k, where) && where[k] == r && k > 0
    ensures Track(input, r - 1, k - 1, where)
  {
    assert where[k - 1] < where[k];
  }

  /** Ids ascending step by step lie in ascending places. */
  lemma {:induction false} Ascending(where: seq<nat>, k: nat, i: nat)
    requires k < |where| && (forall j | 0 < j <= k :: where[j - 1] < where[j]) && i < k
    ensures where[i] < where[k]
    decreases k - i
  {
    if i + 1 < k {
      Ascending(where, k, i + 1);
    }
  }

  /** File 0 stays first. */
  lemma FirstFile(input: seq<Span>, r: nat, k: nat, where: seq<nat>)
    requires Track(input, r, k, where)
    ensures 0 < |where| && where[0] == 0
  {
  }

  /** Stepping `r` left over a free span. */
  lemma TrackSkip(input: seq<Span>, r: nat, k: nat, where: seq<nat>)
    requires Track(input, r, k, where) && r > 0 && input[r].id.None?
    ensures Track(input, r - 1, k, where)
  {
    TrackLower(input, r, k, where);
  }

  /**
   * Stepping `r` left over file `k` when it stays: its try moves nothing in
   * the reference either, and file `k - 1` is next.
   */
  lemma TrackPass(input: seq<Span>, r: nat, k: nat, where: seq<nat>)
    requires Track(input, r, k, where) && r > 0 && where[k] == r
    requires FindFit(input, input[r].count).None? || FindFit(input, input[r].count).value > r
    ensures k > 0 && Track(input, r - 1, k - 1, where)
    ensures ByIds(input, k - 1) == ByIds(input, k)
  {
    FirstFile(input, r, k, where);
    TrackNext(input, r, k, where);
    PassIsStep(input, r, k, where);
  }

  /** A file `k` with no fit to its left stays in the reference too. */
  lemma PassIsStep(input: seq<Span>, r: nat, k: nat, where: seq<nat>)
    requires Track(input, r, k, where) && where[k] == r && k > 0
    requires FindFit(input, input[r].count).None? || FindFit(input, input[r].count).value > r
    ensures ByIds(input, k - 1) == ByIds(input, k)
  {
    TrackLocate(input, r, k, where, k);
    FindFitPrefix(input, input[r].count, r);
    assert Step(input, k) == input;
  }

  /** A file with no fit to its left keeps none when another file moves into a span left of `r`. */
  lemma StuckShift(input: seq<Span>, pos: nat, r: nat, j: nat)
    requires pos < r < |input| && input[r].id.Some? && Fits(input[pos], input[r].count)
    requires j < r && j != pos && input[j].id.Some? && NoFitLeft(input, j)
    ensures Shift(j, pos) < |Move(input, pos, r)| && NoFitLeft(Move(input, pos, r), Shift(j, pos))
  {
    var m := Move(input, pos, r);
    MoveIndex(input, pos, r);
    var j' := Shift(j, pos);
    assert m[j'] == input[j];
    forall q | 0 <= q < j'
      ensures !Fits(m[q], m[j'].count)
    {
      if q < pos {
        assert m[q] == input[q];
      } else if q == pos + 1 {
        assert !Fits(input[pos], input[j].count);
      } else if pos + 2 <= q {
        assert m[q] == input[q - 1];
      }
    }
  }

  /** The new places after moving the file at `r` (file `k`) into free span `pos`. */
  function Moved(where: seq<nat>, k: nat, pos: nat): (w: seq<nat>)
    ensures |w| == |where|
  {
    seq(|where|, i requires 0 <= i < |where| => if i == k then pos else Shift(where[i], pos))
  }

  lemma TrackMovePlaces(input: seq<Span>, r: nat, k: nat, where: seq<nat>, pos: nat)
    requires Track(input, r, k, where) && where[k] == r
    requires pos < r && Fits(input[pos], input[r].count)
    ensures var m, w := Move(input, pos, r), Moved(where, k, pos);
      && (forall i | 0 <= i < |w| :: w[i] < |m| && m[w[i]].id == Some(i))
      && (forall j | 0 <= j < |m| && m[j].id.Some? :: m[j].id.value < |w| && w[m[j].id.value] == j)
  {
    var m, w := Move(input, pos, r), Moved(where, k, pos);
    MoveIndex(input, pos, r);
    forall i | 0 <= i < |w|
      ensures w[i] < |m| && m[w[i]].id == Some(i)
    {
      if i != k {
        var x := where[i];
        assert x != r && x != pos;
        if x < pos {
          assert m[x] == input[x];
        } else {
          assert m[x + 1] == input[x];
        }
      }
    }
    forall j | 0 <= j < |m| && m[j].id.Some?
      ensures m[j].id.value < |w| && w[m[j].id.value] == j
    {
      if j < pos {
        assert m[j] == input[j];
        assert where[m[j].id.value] == j;
      } else if j == pos {
      } else if pos + 2 <= j <= r {
        assert m[j] == input[j - 1];
        assert where[m[j].id.value] == j - 1;
      } else if r + 2 <= j {
        assert m[j] == input[j - 1];
        assert where[m[j].id.value] == j - 1;
      }
    }
  }

  /** The file a move takes is file `k`: a file tried already has no fit left of it, and lower ids lie further left. */
  lemma MoveTakesNext(input: seq<Span>, r: nat, k: nat, where: seq<nat>, pos: nat)
    requires Track(input, r, k, where) && input[r].id.Some?
    requires pos < r && Fits(input[pos], input[r].count)
    ensures input[r].id == Some(k) && where[k] == r && k > 0
  {
    var i := input[r].id.value;
    assert where[i] == r;
    assert where[0] == 0;
    if i < k {
      Ascending(where, k, i);
    }
  }

  lemma MoveKeepsOrder(input: seq<Span>, r: nat, k: nat, where: seq<nat>, pos: nat)
    requires Track(input, r, k, where) && where[k] == r && k > 0
    requires pos < r && Fits(input[pos], input[r].count)
    ensures var w := Moved(where, k, pos);
      && (forall i | 0 < i <= k - 1 :: w[i - 1] < w[i])
      && w[k - 1] <= r
  {
    var w := Moved(where, k, pos);
    forall i | 0 < i <= k - 1
      ensures w[i - 1] < w[i]
    {
      assert where[i - 1] < where[i];
      assert input[where[i]].id == Some(i);
    }
    assert where[k - 1] < where[k];
  }

  lemma MoveKeepsStuck(input: seq<Span>, r: nat, k: nat, where: seq<nat>, pos: nat)
    requires Track(input, r, k, where) && where[k] == r && k > 0
    requires FindFit(input, input[r].count) == Some(pos) && pos < r
    ensures var m, w := Move(input, pos, r), Moved(where, k, pos);
      forall i | k - 1 < i < |w| && w[i] <= r :: w[i] < |m| && NoFitLeft(m, w[i])
  {
    var m, w := Move(input, pos, r), Moved(where, k, pos);
    MoveIndex(input, pos, r);
    forall i | k - 1 < i < |w| && w[i] <= r
      ensures w[i] < |m| && NoFitLeft(m, w[i])
    {
      if i == k {
        forall q | 0 <= q < pos
          ensures !Fits(m[q], m[pos].count)
        {
          assert m[q] == input[q];
        }
      } else {
        var x := where[i];
        assert x != r && x != pos && x <= r;
        StuckShift(input, pos, r, x);
      }
    }
  }

  /** The move is the reference's try of file `k`. */
  lemma MoveIsStep(input: seq<Span>, r: nat, k: nat, where: seq<nat>, pos: nat)
    requires Track(input, r, k, where) && where[k] == r && k > 0
    requires FindFit(input, input[r].count) == Some(pos) && pos < r
    ensures ByIds(input, k) == ByIds(Move(input, pos, r), k - 1)
  {
    TrackLocate(input, r, k, where, k);
    FindFitPrefix(input, input[r].count, r);
  }

  /**
   * Moving the file at `r` into the leftmost fit: that file is file `k`,
   * its move is the reference's try of file `k`, and the state tracks the
   * reference with file `k - 1` next.
   */
  lemma TrackMove(input: seq<Span>, r: nat, k: nat, where: seq<nat>, pos: nat)
    requires Track(input, r, k, where) && input[r].id.Some?
    requires FindFit(input, input[r].count) == Some(pos) && pos < r
    ensures k > 0 && Track(Move(input, pos, r), r, k - 1, Moved(where, k, pos))
    ensures ByIds(input, k) == ByIds(Move(input, pos, r), k - 1)
  {
    MoveTakesNext(input, r, k, where, pos);
    MoveIndex(input, pos, r);
    TrackMovePlaces(input, r, k, where, pos);
    MoveKeepsOrder(input, r, k, where, pos);
    MoveKeepsStuck(input, r, k, where, pos);
    MoveIsStep(input, r, k, where, pos);
  }

  /** When `r` reaches the first file, every file has had its try. */
  lemma TrackDone(input: seq<Span>, k: nat, where: seq<nat>)
    requires Track(input, 0, k, where)
    ensures k == 0 && ByIds(input, k) == input
  {
    assert where[0] == 0;
  }

  /**
   * The invariant of part B's loop: the first span and the file spans and
   * the disk size as they were, every file right of `r` settled, and the
   * state tracking the reference, whose remaining tries end in `goal`.
   */
  ghost predicate Loop(spans: seq<Span>, goal: seq<Span>, input: seq<Span>, r: nat, k: nat, where: seq<nat>)
  {
    && Track(input, r, k, where) && |spans| > 0 && input[0] == spans[0]
    && FileSpans(input) == FileSpans(spans) && |Blocks(input)| == |Blocks(spans)|
    && DoneAfter(input, r) && ByIds(input, k) == goal
  }

  /** A move of the file at `r` into the leftmost fit keeps the invariant, with file `k - 1` next. */
  lemma MoveKeepsLoop(spans: seq<Span>, goal: seq<Span>, input: seq<Span>, r: nat, k: nat, where: seq<nat>, pos: nat)
    requires Loop(spans, goal, input, r, k, where) && input[r].id.Some?
    requires FindFit(input, input[r].count) == Some(pos) && pos < r
    ensures k > 0 && Loop(spans, goal, Move(input, pos, r), r, k - 1, Moved(where, k, pos))
    ensures FileWeight(Move(input, pos, r)[..r + 1], 0) < FileWeight(input[..r + 1], 0)
  {
    MoveStep(spans, input, pos, r);
    TrackMove(input, r, k, where, pos);
  }

  /** File `k`, the next to try, has no fit left of it and stays: `r` steps left and file `k - 1` is next. */
  lemma KeepNext(spans: seq<Span>, goal: seq<Span>, input: seq<Span>, r: nat, k: nat, where: seq<nat>)
    requires Loop(spans, goal, input, r, k, where) && 0 < r && where[k] == r
    requires FindFit(input, input[r].count).None? || FindFit(input, input[r].count).value > r
    ensures k > 0 && Loop(spans, goal, input, r - 1, k - 1, where)
  {
    PassStep(input, r);
    TrackPass(input, r, k, where);
  }

  /** A file tried already stays: `r` steps left. */
  lemma KeepTried(spans: seq<Span>, goal: seq<Span>, input: seq<Span>, r: nat, k: nat, where: seq<nat>)
    requires Loop(spans, goal, input, r, k, where) && 0 < r && input[r].id.Some? && where[k] != r
    requires FindFit(input, input[r].count).None? || FindFit(input, input[r].count).value > r
    ensures Loop(spans, goal, input, r - 1, k, where)
  {
    PassStep(input, r);
    TrackLower(input, r, k, where);
  }

  /** A file with no fit left of it stays: `r` steps left, past file `k` when it was the one tried. */
  lemma KeepFile(spans: seq<Span>, goal: seq<Span>, input: seq<Span>, r: nat, k: nat, where: seq<nat>) returns (k': nat)
    requires Loop(spans, goal, input, r, k, where) && 0 < r && input[r].id.Some?
    requires FindFit(input, input[r].count).None? || FindFit(input, input[r].count).value > r
    ensures Loop(spans, goal, input, r - 1, k', where)
  {
    if where[k] == r {
      KeepNext(spans, goal, input, r, k, where);
      k' := k - 1;
    } else {
      KeepTried(spans, goal, input, r, k, where);
      k' := k;
    }
  }

  /** Stepping `r` left over a free span keeps the invariant. */
  lemma SkipKeepsLoop(spans: seq<Span>, goal: seq<Span>, input: seq<Span>, r: nat, k: nat, where: seq<nat>)
    requires Loop(spans, goal, input, r, k, where) && input[r].id.None?
    ensures 0 < r && Loop(spans, goal, input, r - 1, k, where)
  {
    PassStep(input, r);
    TrackSkip(input, r, k, where);
  }

  /** Part B's inner loop: `r` steps left over free spans to the nearest file. */
  method SkipFreeSpans(spans: seq<Span>, ghost goal: seq<Span>, input: seq<Span>, r: nat, ghost k: nat, ghost where: seq<nat>)
    returns (r': nat)
    requires Loop(spans, goal, input, r, k, where)
    ensures r' <= r && input[r'].id.Some? && Loop(spans, goal, input, r', k, where)
  {
    r' := r;
    while input[r'].id.None?
      invariant r' <= r && Loop(spans, goal, input, r', k, where)
      decreases r'
    {
      SkipKeepsLoop(spans, goal, input, r', k, where);
      r' := r' - 1;
    }
  }

  /** The invariant after one try of the file at `r`, whichever way it goes. */
  lemma TryKeepsLoop(spans: seq<Span>, goal: seq<Span>, input: seq<Span>, r: nat, k: nat, where: seq<nat>)
    returns (k': nat, where': seq<nat>)
    requires Loop(spans, goal, input, r, k, where) && 0 < r && input[r].id.Some?
    ensures var fit := FindFit(input, input[r].count);
      if fit.Some? && fit.value < r then
        && Loop(spans, goal, Move(input, fit.value, r), r, k', where')
        && FileWeight(Move(input, fit.value, r)[..r + 1], 0) < FileWeight(input[..r + 1], 0)
      else Loop(spans, goal, input, r - 1, k', where')
  {
    var fit := FindFit(input, input[r].count);
    if fit.Some? && fit.value < r {
      MoveKeepsLoop(spans, goal, input, r, k, where, fit.value);
      k', where' := k - 1, Moved(where, k, fit.value);
    } else {
      k' := KeepFile(spans, goal, input, r, k, where);
      where' := where;
    }
  }

  /**
   * One try of the file at `r`: it moves to the leftmost free span that
   * holds it when that lies left of it, and otherwise `r` steps left.
   */
  method TryFile(spans: seq<Span>, ghost goal: seq<Span>, input: seq<Span>, r: nat, ghost k: nat, ghost where: seq<nat>)
    returns (input': seq<Span>, r': nat, ghost k': nat, ghost where': seq<nat>)
    requires Loop(spans, goal, input, r, k, where) && 0 < r && input[r].id.Some?
    ensures Loop(spans, goal, input', r', k', where')
    ensures r' < r || (r' == r && FileWeight(input'[..r + 1], 0) < FileWeight(input[..r + 1], 0))
  {
    k', where' := TryKeepsLoop(spans, goal, input, r, k, where);
    var fit := FindFit(input, input[r].count);
    if fit.Some? && fit.value < r {
      input', r' := Move(input, fit.value, r), r;
    } else {
      input', r' := input, r - 1;
    }
  }

  /** One round of part B's loop: `r` steps left to the nearest file, which then has its try. */
  method Round(spans: seq<Span>, ghost goal: seq<Span>, input: seq<Span>, r: nat, ghost k: nat, ghost where: seq<nat>)
    returns (input': seq<Span>, r': nat, ghost k': nat, ghost where': seq<nat>)
    requires Loop(spans, goal, input, r, k, where) && 0 < r
    ensures Loop(spans, goal, input', r', k', where')
    ensures r' < r || (r' == r && FileWeight(input'[..r + 1], 0) < FileWeight(input[..r + 1], 0))
  {
    var s := SkipFreeSpans(spans, goal, input, r, k, where);
    if s == 0 {
      return input, 0, k, where;
    }
    input', r', k', where' := TryFile(spans, goal, input, s, k, where);
  }

  /**
   * Part B's loop: `r` walks left; each file is tried once.  The result is
   * the reference compaction: every file, from the last to file 1, tries
   * once to move to the leftmost free span left of it that holds it.
   */
  method CompactB(spans: seq<Span>) returns (result: seq<Span>)
    requires |spans| > 0 && Alternating(spans)
    ensures |result| > 0 && result[0] == spans[0]
    ensures FileSpans(result) == FileSpans(spans)
    ensures |Blocks(result)| == |Blocks(spans)|
    ensures Settled(result)
    ensures result == ByIds(spans, (|spans| - 1) / 2)
  {
    var input := spans;
    var r: nat := |spans| - 1;
    ghost var k: nat := (|spans| - 1) / 2;
    ghost var goal := ByIds(spans, k);
    ghost var where := TrackInit(spans);
    while r > 0
      invariant Loop(spans, goal, input, r, k, where)
      decreases r, FileWeight(input[..r + 1], 0)
    {
      input, r, k, where := Round(spans, goal, input, r, k, where);
    }
    DoneSettled(input);
    TrackDone(input, k, where);
    result := input;
  }

  /** Part B: the checksum of the disk after the whole-file moves. */
  method PartB(spans: seq<Span>) returns (checksum: nat, ghost result: seq<Span>)
    requires |spans| > 0 && Alternating(spans)
    ensures checksum == DiskChecksum(Blocks(result))
    ensures FileSpans(result) == FileSpans(spans) && |Blocks(result)| == |Blocks(spans)|
    ensures Settled(result)
    ensures result == ByIds(spans, (|spans| - 1) / 2)
  {
    var moved := CompactB(spans);
    result := moved;
    checksum := DiskChecksum(Blocks(moved));
  }
}
