/** Writing text into a `char` buffer through a moving pointer. */
module Buffers {
  import opened Bytes
  import opened JsonText

  /** A buffer as it was when writing began, and the part [at, end) of it that may be written. */
  datatype Region = Region(was: seq<byte>, at: nat, end: nat)

  /** `w` has been written from the start of the region on, and nothing outside the region has changed. */
  ghost predicate Writing(a: array<byte>, r: Region, w: text)
    reads a
  {
    |r.was| == a.Length && r.at + |w| <= r.end <= a.Length
    && (forall j :: r.at <= j < r.at + |w| ==> a[j] == w[j - r.at])
    && (forall j :: 0 <= j < r.at || r.end <= j < a.Length ==> a[j] == r.was[j])
  }

  /** `*p++ = c` */
  method Put(a: array<byte>, p: nat, c: chr, ghost r: Region, ghost w: text) returns (q: nat)
    requires Writing(a, r, w) && p == r.at + |w| < r.end
    modifies a
    ensures q == p + 1 && Writing(a, r, w + [c])
  {
    a[p] := c;
    q := p + 1;
  }

  /** `strcpy(p, t)` without the NUL, or `memcpy`. */
  method PutText(a: array<byte>, p: nat, t: text, ghost r: Region, ghost w: text) returns (q: nat)
    requires Writing(a, r, w) && p == r.at + |w| && p + |t| <= r.end
    modifies a
    ensures q == p + |t| && Writing(a, r, w + t)
  {
    q := p;
    for i := 0 to |t|
      invariant q == p + i && Writing(a, r, w + t[..i])
    {
      q := Put(a, q, t[i], r, w + t[..i]);
      assert w + t[..i] + [t[i]] == w + t[..i + 1];
    }
    assert t[..|t|] == t;
  }

  /** `memcpy(p, src, n)` */
  method PutCopy(a: array<byte>, p: nat, src: array<byte>, n: nat, ghost t: text, ghost r: Region, ghost w: text)
      returns (q: nat)
    requires a != src && Holds(src, 0, t) && n == |t|
    requires Writing(a, r, w) && p == r.at + |w| && p + n <= r.end
    modifies a
    ensures q == p + n && Writing(a, r, w + t)
  {
    q := p;
    for i := 0 to n
      invariant q == p + i && Writing(a, r, w + t[..i]) && Holds(src, 0, t)
    {
      assert src[i] == src[0..|t|][i] == t[i];
      q := Put(a, q, src[i], r, w + t[..i]);
      assert w + t[..i] + [t[i]] == w + t[..i + 1];
    }
    assert t[..n] == t;
  }

  /** `for (j = 0; j < n; j++) *p++ = '\t';` */
  method PutTabs(a: array<byte>, p: nat, n: int, ghost r: Region, ghost w: text) returns (q: nat)
    requires Writing(a, r, w) && p == r.at + |w| && p + |Tabs(n)| <= r.end
    modifies a
    ensures q == p + |Tabs(n)| && Writing(a, r, w + Tabs(n))
  {
    q := p;
    var j := 0;
    assert w + Tabs(0) == w;
    while j < n
      invariant 0 <= j && (n >= 0 ==> j <= n) && (n < 0 ==> j == 0)
      invariant q == p + j && Writing(a, r, w + Tabs(j))
    {
      q := Put(a, q, TAB, r, w + Tabs(j));
      TabsGrow(j);
      assert w + Tabs(j) + [TAB] == w + Tabs(j + 1);
      j := j + 1;
    }
    assert Tabs(n) == Tabs(j);
  }

  /** `if (cond) *p++ = c;` */
  method PutIf(a: array<byte>, p: nat, cond: bool, c: chr, ghost r: Region, ghost w: text) returns (q: nat)
    requires Writing(a, r, w) && p == r.at + |w| && p + |If(cond, [c])| <= r.end
    modifies a
    ensures q == p + |If(cond, [c])| && Writing(a, r, w + If(cond, [c]))
  {
    q := p;
    if cond {
      q := Put(a, p, c, r, w);
    } else {
      assert w + [] == w;
    }
  }

  /** `if (cond) for (j = 0; j < n; j++) *p++ = '\t';` */
  method PutTabsIf(a: array<byte>, p: nat, cond: bool, n: int, ghost r: Region, ghost w: text) returns (q: nat)
    requires Writing(a, r, w) && p == r.at + |w| && p + |If(cond, Tabs(n))| <= r.end
    modifies a
    ensures q == p + |If(cond, Tabs(n))| && Writing(a, r, w + If(cond, Tabs(n)))
  {
    q := p;
    if cond {
      q := PutTabs(a, p, n, r, w);
    } else {
      assert w + [] == w;
    }
  }

  lemma {:induction false} TabsGrow(n: nat)
    ensures Tabs(n) + [TAB] == Tabs(n + 1)
  {
    if n > 0 {
      TabsGrow(n - 1);
      Assoc([TAB], Tabs(n - 1), [TAB]);
    }
  }

  /** `*p = 0` */
  method Terminate(a: array<byte>, p: nat, ghost r: Region, ghost w: text)
    requires Writing(a, r, w) && p == r.at + |w| < r.end
    modifies a
    ensures Writing(a, r, w) && Holds(a, r.at, w)
  {
    a[p] := 0;
  }

  /** `strcpy(p, t)` */
  method StoreText(a: array<byte>, p: nat, t: text, ghost r: Region)
    requires Writing(a, r, []) && p == r.at && p + |t| < r.end
    modifies a
    ensures Writing(a, r, t) && Holds(a, r.at, t)
  {
    var q := PutText(a, p, t, r, []);
    assert [] + t == t;
    Terminate(a, q, r, t);
  }
}
