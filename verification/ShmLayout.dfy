/** How the shared-memory segment is sized and cut into pools. */
module ShmLayout {
  import opened Arithmetic

  const ALIGN := 0x10_0000
  const INT_MAX := 0x7FFF_FFFF

  /** The sizes of the configuration; `masterEnable` is 1 on a pure master. */
  datatype Config = Config(masterEnable: int, headSize: nat,
                           videoFrameSize: nat, videoQueLen: nat, videoMax: nat,
                           captureFrameSize: nat, captureQueLen: nat, captureMax: nat)

  /** A product of type `int`, as two's complement leaves it. */
  function Wrap(n: int): int {
    (n + 0x8000_0000) % 0x1_0000_0000 - 0x8000_0000
  }

  /** Sizes of one pool. */
  function VideoSize(c: Config): int { Wrap(c.videoFrameSize * c.videoQueLen) }

  function CaptureSize(c: Config): int { Wrap(c.captureFrameSize * c.captureQueLen) }

  /** A product overflows into the negative when its low 32 bits start with a one. */
  predicate WrapsDown(n: nat) {
    n % 0x1_0000_0000 >= 0x8000_0000
  }

  /** No kind of pool that there is has a size that overflows into the negative. */
  predicate Sized(c: Config) {
    (c.videoMax > 0 ==> !WrapsDown(c.videoFrameSize * c.videoQueLen))
    && (c.captureMax > 0 ==> !WrapsDown(c.captureFrameSize * c.captureQueLen))
  }

  /** Overflow never makes a size larger, and makes it negative exactly then. */
  lemma WrapFacts(n: nat)
    ensures Wrap(n) <= n && (Wrap(n) < 0 <==> WrapsDown(n)) && (n <= INT_MAX ==> Wrap(n) == n)
  {
  }

  /** The bytes of all pools. */
  function PoolBytes(c: Config): nat {
    c.videoFrameSize * c.videoQueLen * c.videoMax + c.captureFrameSize * c.captureQueLen * c.captureMax
  }

  predicate HasPools(c: Config) { c.masterEnable == 0 || c.masterEnable == 2 }

  /** shmInit: the size of the segment. */
  function SegmentSize(c: Config): nat {
    var total := c.headSize + if HasPools(c) then PoolBytes(c) else 0;
    total / ALIGN * ALIGN + ALIGN
  }

  /** Rounded up to a multiple of 1 MiB, with at least one byte and at most 1 MiB to spare. */
  lemma SegmentIsAligned(c: Config)
    ensures var video, capture := c.videoFrameSize * c.videoQueLen, c.captureFrameSize * c.captureQueLen;
            var total := c.headSize + if c.masterEnable == 0 || c.masterEnable == 2 then
                                        video * c.videoMax + capture * c.captureMax else 0;
            SegmentSize(c) % 0x10_0000 == 0 && total < SegmentSize(c) <= total + 0x10_0000
  {
  }

  /** A pool occupies `size` bytes from offset `at`. */
  datatype Pool = Pool(at: int, size: int, id: int)

  /** Where the i-th pool is to start: behind the head pool and the pools before it. */
  function Start(c: Config, i: nat): int {
    c.headSize + if i <= c.videoMax then i * VideoSize(c)
                 else c.videoMax * VideoSize(c) + (i - c.videoMax) * CaptureSize(c)
  }

  function SizeAt(c: Config, i: nat): int {
    if i < c.videoMax then VideoSize(c) else CaptureSize(c)
  }

  lemma {:induction false} NextStart(c: Config, i: nat)
    ensures Start(c, i + 1) == Start(c, i) + SizeAt(c, i)
  {
    if i < c.videoMax {
      assert (i + 1) * VideoSize(c) == i * VideoSize(c) + VideoSize(c);
    } else {
      var j := i - c.videoMax;
      assert (j + 1) * CaptureSize(c) == j * CaptureSize(c) + CaptureSize(c);
      assert i == c.videoMax ==> Start(c, i) == c.headSize + c.videoMax * VideoSize(c);
    }
  }

  /** What the two loops lay out. */
  function LaidBytes(c: Config): int {
    c.videoMax * VideoSize(c) + c.captureMax * CaptureSize(c)
  }

  lemma LastEnd(c: Config)
    ensures Start(c, c.videoMax + c.captureMax) == c.headSize + LaidBytes(c)
  {
  }

  /** Pools never take more than was reckoned with. */
  lemma {:induction false} LaidWithinReckoned(c: Config)
    ensures LaidBytes(c) <= PoolBytes(c)
  {
    WrapFacts(c.videoFrameSize * c.videoQueLen);
    WrapFacts(c.captureFrameSize * c.captureQueLen);
    assert c.videoMax * VideoSize(c) == VideoSize(c) * c.videoMax;
    assert c.captureMax * CaptureSize(c) == CaptureSize(c) * c.captureMax;
    Scaled(VideoSize(c), c.videoFrameSize * c.videoQueLen, c.videoMax);
    Scaled(CaptureSize(c), c.captureFrameSize * c.captureQueLen, c.captureMax);
  }

  lemma SizesAre(c: Config, i: nat)
    requires Sized(c) && i < c.videoMax + c.captureMax
    ensures SizeAt(c, i) >= 0
  {
    WrapFacts(c.videoFrameSize * c.videoQueLen);
    WrapFacts(c.captureFrameSize * c.captureQueLen);
  }

  lemma {:induction false} StartsGrow(c: Config, i: nat, j: nat)
    requires Sized(c) && i <= j <= c.videoMax + c.captureMax
    ensures Start(c, i) <= Start(c, j)
    decreases j - i
  {
    if i < j {
      NextStart(c, i);
      SizesAre(c, i);
      StartsGrow(c, i + 1, j);
    }
  }

  ghost predicate LaidOut(c: Config, pools: seq<Pool>, n: nat) {
    n <= |pools| && forall i :: 0 <= i < n ==> pools[i] == Pool(Start(c, i), SizeAt(c, i), i + 1)
  }

  ghost predicate AllPools(c: Config, pools: seq<Pool>) {
    |pools| == c.videoMax + c.captureMax && LaidOut(c, pools, |pools|)
  }

  /** One behind the other from the head pool on, numbered from 1. */
  predicate InRow(headSize: nat, pools: seq<Pool>) {
    (pools != [] ==> pools[0].at == headSize)
    && (forall i :: 0 <= i < |pools| ==> pools[i].id == i + 1)
    && forall i :: 0 < i < |pools| ==> pools[i].at == pools[i - 1].at + pools[i - 1].size
  }

  /** A size of type `int` that agrees with the product in its low 32 bits. */
  predicate Truncates(size: int, product: nat) {
    -0x8000_0000 <= size < 0x8000_0000 && (product - size) % 0x1_0000_0000 == 0
  }

  /** Each pool has the configured size, up to the overflow of `int`. */
  predicate HasConfiguredSizes(c: Config, pools: seq<Pool>) {
    |pools| == c.videoMax + c.captureMax
    && (forall i :: 0 <= i < c.videoMax ==> Truncates(pools[i].size, c.videoFrameSize * c.videoQueLen))
    && forall i :: c.videoMax <= i < |pools| ==> Truncates(pools[i].size, c.captureFrameSize * c.captureQueLen)
  }

  /** Without overflow: `v` and `w` are the sizes of a video and of a capture pool. */
  predicate AtConfiguredPlaces(c: Config, pools: seq<Pool>, v: nat, w: nat) {
    |pools| == c.videoMax + c.captureMax
    && (forall i :: 0 <= i < c.videoMax ==> pools[i] == Pool(c.headSize + i * v, v, i + 1))
    && forall j :: 0 <= j < c.captureMax ==>
         pools[c.videoMax + j] == Pool(c.headSize + c.videoMax * v + j * w, w, c.videoMax + j + 1)
  }

  lemma {:induction false} LaidFromConfig(c: Config, pools: seq<Pool>)
    requires AllPools(c, pools)
    ensures InRow(c.headSize, pools) && HasConfiguredSizes(c, pools)
    ensures var v, w := c.videoFrameSize * c.videoQueLen, c.captureFrameSize * c.captureQueLen;
            v <= 0x7FFF_FFFF && w <= 0x7FFF_FFFF ==> AtConfiguredPlaces(c, pools, v, w)
  {
    WrapTruncates(c.videoFrameSize * c.videoQueLen);
    WrapTruncates(c.captureFrameSize * c.captureQueLen);
    forall i | 0 < i < |pools| ensures pools[i].at == pools[i - 1].at + pools[i - 1].size {
      NextStart(c, i - 1);
      assert pools[i - 1] == Pool(Start(c, i - 1), SizeAt(c, i - 1), i);
    }
    var v, w := c.videoFrameSize * c.videoQueLen, c.captureFrameSize * c.captureQueLen;
    if v <= 0x7FFF_FFFF && w <= 0x7FFF_FFFF {
      forall j | 0 <= j < c.captureMax
        ensures pools[c.videoMax + j] == Pool(c.headSize + c.videoMax * v + j * w, w, c.videoMax + j + 1)
      {
        if j == 0 {
          assert Start(c, c.videoMax) == c.headSize + c.videoMax * v;
        }
      }
    }
  }

  lemma WrapTruncates(n: nat)
    ensures Truncates(Wrap(n), n) && (n <= 0x7FFF_FFFF ==> Wrap(n) == n)
  {
  }

  /** The two loops of initShmArray. */
  method InitShmArray(c: Config) returns (pools: array<Pool>)
    ensures pools.Length == c.videoMax + c.captureMax && LaidOut(c, pools[..], pools.Length)
    ensures InRow(c.headSize, pools[..]) && HasConfiguredSizes(c, pools[..])
    ensures var v, w := c.videoFrameSize * c.videoQueLen, c.captureFrameSize * c.captureQueLen;
            v <= 0x7FFF_FFFF && w <= 0x7FFF_FFFF ==> AtConfiguredPlaces(c, pools[..], v, w)
  {
    var videoShmSize, captureShmSize := Wrap(c.videoFrameSize * c.videoQueLen),
      Wrap(c.captureFrameSize * c.captureQueLen);
    pools := new Pool[c.videoMax + c.captureMax](_ => Pool(0, 0, 0));
    var offset: int := c.headSize;
    var i := 0;
    while i < c.videoMax
      invariant 0 <= i <= c.videoMax && offset == Start(c, i)
      invariant LaidOut(c, pools[..], i)
    {
      pools[i] := Pool(offset, videoShmSize, i + 1);
      NextStart(c, i);
      offset := offset + videoShmSize;
      i := i + 1;
    }
    var j := 0;
    while j < c.captureMax
      invariant 0 <= j <= c.captureMax && i == c.videoMax + j && offset == Start(c, i)
      invariant LaidOut(c, pools[..], i)
    {
      pools[i] := Pool(offset, captureShmSize, i + 1);
      NextStart(c, i);
      offset := offset + captureShmSize;
      j, i := j + 1, i + 1;
    }
    LaidFromConfig(c, pools[..]);
  }

  /** The bytes [a, a + m) and [b, b + n) do not meet. */
  predicate Apart(a: int, m: int, b: int, n: int) {
    a + m <= b || b + n <= a
  }

  ghost predicate Inside(p: Pool, segment: nat) {
    0 <= p.at && p.at + p.size <= segment
  }

  /** The pools are disjoint from each other and from the head pool. */
  lemma {:induction false} PoolsApart(c: Config, pools: seq<Pool>, i: nat, j: nat)
    requires Sized(c) && AllPools(c, pools) && i < |pools| && j < |pools|
    ensures pools[i].size >= 0 && Apart(0, c.headSize, pools[i].at, pools[i].size)
    ensures i != j ==> Apart(pools[i].at, pools[i].size, pools[j].at, pools[j].size)
  {
    SizesAre(c, i);
    NextStart(c, i);
    NextStart(c, j);
    StartsGrow(c, 0, i);
    if i < j {
      StartsGrow(c, i + 1, j);
    } else if j < i {
      StartsGrow(c, j + 1, i);
    }
  }

  /** Exactly when the segment reaches to the end of the last pool, all of them are inside. */
  lemma {:induction false} AllInside(c: Config, pools: seq<Pool>)
    requires Sized(c) && AllPools(c, pools)
    ensures (forall i :: 0 <= i < |pools| ==> Inside(pools[i], SegmentSize(c)))
            <==> c.headSize + LaidBytes(c) <= SegmentSize(c)
  {
    var n := |pools|;
    LastEnd(c);
    SegmentIsAligned(c);
    if n > 0 {
      PoolEnds(c, n - 1);
      assert pools[n - 1] == Pool(Start(c, n - 1), SizeAt(c, n - 1), n);
    }
    forall i | 0 <= i < n ensures 0 <= pools[i].at && pools[i].at + pools[i].size <= Start(c, n) {
      PoolEnds(c, i);
    }
  }

  lemma {:induction false} PoolEnds(c: Config, i: nat)
    requires Sized(c) && i < c.videoMax + c.captureMax
    ensures 0 <= Start(c, i) && Start(c, i) + SizeAt(c, i) == Start(c, i + 1) <= Start(c, c.videoMax + c.captureMax)
  {
    NextStart(c, i);
    StartsGrow(c, 0, i);
    StartsGrow(c, i + 1, c.videoMax + c.captureMax);
  }

  /** On a slave and on a combined node they always are. */
  lemma {:induction false} InsideWithPools(c: Config, pools: seq<Pool>, i: nat)
    requires Sized(c) && HasPools(c) && AllPools(c, pools) && i < |pools|
    ensures Inside(pools[i], SegmentSize(c))
  {
    SegmentIsAligned(c);
    LaidWithinReckoned(c);
    AllInside(c, pools);
  }

  /** On a pure master the same loops run although the segment was sized without pools: they stay inside exactly when
      everything fits into the slack behind the head pool. */
  lemma {:induction false} InsideOnMaster(c: Config, pools: seq<Pool>)
    requires Sized(c) && !HasPools(c) && AllPools(c, pools)
    ensures (forall i :: 0 <= i < |pools| ==> Inside(pools[i], SegmentSize(c)))
            <==> LaidBytes(c) <= ALIGN - c.headSize % ALIGN
  {
    AllInside(c, pools);
    assert c.headSize == c.headSize / ALIGN * ALIGN + c.headSize % ALIGN;
  }

  /** What the layout is to guarantee: sizes that are not negative, pools apart from each other and from the head
      pool, and all of them inside the segment. */
  ghost predicate Sound(c: Config, pools: seq<Pool>) {
    (forall i :: 0 <= i < |pools| ==>
       pools[i].size >= 0 && Apart(0, c.headSize, pools[i].at, pools[i].size) && Inside(pools[i], SegmentSize(c)))
    && forall i, j :: 0 <= i < |pools| && 0 <= j < |pools| && i != j ==>
         Apart(pools[i].at, pools[i].size, pools[j].at, pools[j].size)
  }

  /** It does so exactly when no size overflows into the negative and, on a pure master, the pools fit into the
      slack. */
  lemma {:induction false} SoundExactly(c: Config, pools: seq<Pool>)
    requires AllPools(c, pools)
    ensures Sound(c, pools) <==> Sized(c) && (HasPools(c) || LaidBytes(c) <= ALIGN - c.headSize % ALIGN)
  {
    if Sized(c) {
      forall i, j | 0 <= i < |pools| && 0 <= j < |pools| && i != j
        ensures Apart(pools[i].at, pools[i].size, pools[j].at, pools[j].size)
      {
        PoolsApart(c, pools, i, j);
      }
      forall i | 0 <= i < |pools| ensures pools[i].size >= 0 && Apart(0, c.headSize, pools[i].at, pools[i].size) {
        PoolsApart(c, pools, i, i);
      }
      if HasPools(c) {
        forall i | 0 <= i < |pools| ensures Inside(pools[i], SegmentSize(c)) {
          InsideWithPools(c, pools, i);
        }
      } else {
        InsideOnMaster(c, pools);
      }
    } else {
      NegativeSize(c, pools);
    }
  }

  lemma NegativeSize(c: Config, pools: seq<Pool>)
    requires AllPools(c, pools) && !Sized(c)
    ensures exists i :: 0 <= i < |pools| && pools[i].size < 0
  {
    WrapFacts(c.videoFrameSize * c.videoQueLen);
    WrapFacts(c.captureFrameSize * c.captureQueLen);
    if c.videoMax > 0 && VideoSize(c) < 0 {
      assert pools[0].size < 0;
    } else {
      assert pools[c.videoMax].size < 0;
    }
  }

  /** A pure master with one pool of 2 MiB behind a head of 1 MiB. */
  lemma {:induction false} OutsideOnMaster(pools: seq<Pool>)
    requires AllPools(Config(1, ALIGN, ALIGN, 2, 1, 0, 0, 0), pools)
    ensures !Inside(pools[0], SegmentSize(Config(1, ALIGN, ALIGN, 2, 1, 0, 0, 0)))
  {
    InsideOnMaster(Config(1, ALIGN, ALIGN, 2, 1, 0, 0, 0), pools);
  }

  /** A slave with two pools of 2^31 bytes: the second one starts before the segment. */
  lemma {:induction false} OutsideOnOverflow(pools: seq<Pool>)
    requires AllPools(Config(0, ALIGN, 0x8000, 0x1_0000, 2, 0, 0, 0), pools)
    ensures pools[1].at < 0 && !Inside(pools[1], SegmentSize(Config(0, ALIGN, 0x8000, 0x1_0000, 2, 0, 0, 0)))
  {
    var c := Config(0, ALIGN, 0x8000, 0x1_0000, 2, 0, 0, 0);
    assert VideoSize(c) == -0x8000_0000;
    assert pools[1].at == ALIGN - 0x8000_0000;
  }

  /** An overflow that does no harm: the size wraps to 64 KiB. */
  lemma {:induction false} HarmlessOverflow(pools: seq<Pool>)
    requires AllPools(Config(0, ALIGN, 0x1_0000, 0x1_0001, 2, 0, 0, 0), pools)
    ensures Sound(Config(0, ALIGN, 0x1_0000, 0x1_0001, 2, 0, 0, 0), pools) && pools[1].size == 0x1_0000
  {
    var c := Config(0, ALIGN, 0x1_0000, 0x1_0001, 2, 0, 0, 0);
    assert VideoSize(c) == 0x1_0000;
    SoundExactly(c, pools);
  }
}
