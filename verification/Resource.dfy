/**
 * The resource tree of kernel/resource.c: requests, releases, the search for free
 * space, and the reservation of a range around what is already there.
 */
module Resource {
  import opened Base

  function Pow2(k: nat): (r: nat)
    ensures r > 0
  {
    if k == 0 then 1 else 2 * Pow2(k - 1)
  }

  /** The number of 64-bit addresses. */
  const U64: nat := Pow2(64)

  /** A resource: its range, both ends included, its IORESOURCE_UNSET flag, and its children in list order. */
  datatype Res = Res(start: nat, end: nat, unset: bool, kids: seq<Res>)

  ghost predicate Overlaps(r: Res, start: int, end: int)
  {
    r.start <= end && start <= r.end
  }

  /** Sorted, disjoint, and inside the range. */
  ghost predicate Siblings(kids: seq<Res>, start: nat, end: nat)
  {
    && (forall i :: 0 <= i < |kids| ==> start <= kids[i].start <= kids[i].end <= end)
    && (forall i, j :: 0 <= i < j < |kids| ==> kids[i].end < kids[j].start)
  }

  ghost predicate WellFormed(r: Res)
    decreases r
  {
    && r.start <= r.end < U64 && Siblings(r.kids, r.start, r.end)
    && forall i :: 0 <= i < |r.kids| ==> WellFormed(r.kids[i])
  }

  /** No address of the range is taken by one of the children. */
  ghost predicate Free(kids: seq<Res>, start: int, end: int)
  {
    forall i :: 0 <= i < |kids| ==> !Overlaps(kids[i], start, end)
  }

  function InsertAt(kids: seq<Res>, i: nat, r: Res): seq<Res>
    requires i <= |kids|
  {
    kids[..i] + [r] + kids[i..]
  }

  function RemoveAt(kids: seq<Res>, i: nat): seq<Res>
    requires i < |kids|
  {
    kids[..i] + kids[i + 1..]
  }

  ghost predicate AllWell(kids: seq<Res>)
  {
    forall i :: 0 <= i < |kids| ==> WellFormed(kids[i])
  }

  lemma Assemble(r: Res)
    requires r.start <= r.end < U64 && Siblings(r.kids, r.start, r.end) && AllWell(r.kids)
    ensures WellFormed(r)
  {
  }

  lemma TakeApart(r: Res)
    requires WellFormed(r)
    ensures r.start <= r.end < U64 && Siblings(r.kids, r.start, r.end) && AllWell(r.kids)
  {
  }

  lemma AllWellParts(a: seq<Res>, b: seq<Res>)
    ensures AllWell(a + b) <==> AllWell(a) && AllWell(b)
  {
    hide WellFormed;
    if AllWell(a + b) {
      assert forall i :: 0 <= i < |a| ==> a[i] == (a + b)[i];
      assert forall i :: 0 <= i < |b| ==> b[i] == (a + b)[|a| + i];
    }
  }

  lemma InsertSiblings(kids: seq<Res>, i: nat, r: Res, start: nat, end: nat)
    requires Siblings(kids, start, end) && i <= |kids| && start <= r.start <= r.end <= end
    requires forall j :: 0 <= j < i ==> kids[j].end < r.start
    requires forall j :: i <= j < |kids| ==> r.end < kids[j].start
    ensures Siblings(InsertAt(kids, i, r), start, end)
  {
    AdoptSiblings(kids, i, i, r, start, end);
  }

  lemma InsertKeeps(root: Res, i: nat, r: Res)
    requires WellFormed(root) && WellFormed(r) && i <= |root.kids| && root.start <= r.start && r.end <= root.end
    requires forall j :: 0 <= j < i ==> root.kids[j].end < r.start
    requires forall j :: i <= j < |root.kids| ==> r.end < root.kids[j].start
    ensures WellFormed(root.(kids := InsertAt(root.kids, i, r)))
  {
    TakeApart(root);
    hide WellFormed, Siblings, Pow2;
    InsertSiblings(root.kids, i, r, root.start, root.end);
    AllWellSwap(root.kids, i, i, [r]);
    Assemble(root.(kids := InsertAt(root.kids, i, r)));
  }

  /** Well-formed resources in the place of those from i to j. */
  lemma AllWellSwap(kids: seq<Res>, i: nat, j: nat, new_: seq<Res>)
    requires AllWell(kids) && i <= j <= |kids| && AllWell(new_)
    ensures AllWell(kids[..i] + new_ + kids[j..]) && AllWell(kids[i..j])
  {
    hide WellFormed, AllWell;
    assert kids == kids[..i] + (kids[i..j] + kids[j..]);
    AllWellParts(kids[..i], kids[i..j] + kids[j..]);
    AllWellParts(kids[i..j], kids[j..]);
    AllWellParts(kids[..i], new_);
    AllWellParts(kids[..i] + new_, kids[j..]);
  }

  lemma RemoveKeeps(root: Res, i: nat)
    requires WellFormed(root) && i < |root.kids|
    ensures WellFormed(root.(kids := RemoveAt(root.kids, i)))
  {
    var ks := RemoveAt(root.kids, i);
    forall j | 0 <= j < |ks|
      ensures ks[j] == root.kids[if j < i then j else j + 1]
    {
    }
  }

  // ----- the search for free space -----

  /** s is a multiple of 2^k. */
  ghost predicate Multiple(s: nat, k: nat)
    decreases k
  {
    k == 0 || (s % 2 == 0 && Multiple(s / 2, k - 1))
  }

  lemma {:induction false} MultipleIs(s: nat, k: nat)
    ensures Multiple(s, k) <==> s % Pow2(k) == 0
    decreases k
  {
    if k > 0 {
      MultipleIs(s / 2, k - 1);
      if s % Pow2(k) == 0 {
        HalfOfMod(s, Pow2(k - 1));
      }
      if Multiple(s, k) {
        ModOfHalf(s, Pow2(k - 1));
      }
    }
  }

  lemma HalfOfMod(s: nat, h: nat)
    requires h > 0 && s % (2 * h) == 0
    ensures s % 2 == 0 && s / 2 % h == 0
  {
    var q := s / (2 * h);
    assert s == 2 * (h * q) by {
      Twice(h, q);
    }
    MulMod(h, q);
  }

  lemma ModOfHalf(s: nat, h: nat)
    requires h > 0 && s % 2 == 0 && s / 2 % h == 0
    ensures s % (2 * h) == 0
  {
    var q := s / 2 / h;
    assert s == 2 * h * q by {
      assert s / 2 == h * q;
      Twice(h, q);
    }
    MulMod(2 * h, q);
  }

  lemma Twice(h: nat, q: nat)
    ensures 2 * h * q == 2 * (h * q)
  {
  }

  lemma MulMod(a: nat, q: nat)
    requires a > 0
    ensures a * q % a == 0
  {
    var x: int := a * q;
    var d: int := q - x / a;
    assert a * d == x % a;
    assert (d >= 1 ==> a * d >= a) && (d <= -1 ==> a * d + a <= 0);
  }

  /** The least multiple of 2^k from x on. */
  function RoundUp(x: nat, k: nat): (r: nat)
    ensures r >= x && Multiple(r, k)
    decreases k
  {
    if k == 0 then x else 2 * RoundUp((x + 1) / 2, k - 1)
  }

  /** ALIGN(x, 2^k) in 64 bits */
  function Align(x: nat, k: nat): nat
  {
    if RoundUp(x, k) < U64 then RoundUp(x, k) else RoundUp(x, k) - U64
  }

  lemma {:induction false} RoundUpLeast(x: nat, k: nat, s: nat)
    requires s >= x && Multiple(s, k)
    ensures s >= RoundUp(x, k)
    decreases k
  {
    if k > 0 {
      RoundUpLeast((x + 1) / 2, k - 1, s / 2);
    }
  }

  lemma {:induction false} PowMultiple(n: nat, k: nat)
    requires k <= n
    ensures Multiple(Pow2(n), k)
  {
    if k > 0 {
      PowMultiple(n - 1, k - 1);
      var half := Pow2(n - 1);
      assert Pow2(n) == 2 * half && (2 * half) % 2 == 0 && 2 * half / 2 == half;
      hide Pow2;
    }
  }

  /** Rounding up reaches at most 2^64, and then the result has wrapped around to 0. */
  lemma AlignWraps(x: nat, k: nat)
    requires x < U64 && k <= 64
    ensures if RoundUp(x, k) < U64 then Align(x, k) == RoundUp(x, k) else RoundUp(x, k) == U64 && Align(x, k) == 0 < x
  {
    PowMultiple(64, k);
    RoundUpLeast(x, k, U64);
    ZeroMultiple(k);
    RoundUpLeast(0, k, 0);
  }

  lemma {:induction false} ZeroMultiple(k: nat)
    ensures Multiple(0, k)
  {
    if k > 0 {
      ZeroMultiple(k - 1);
    }
  }

  /** s is a place for the wanted range: aligned, inside root and [min, max], and free of all children but number
      own. */
  ghost predicate Fits(root: Res, own: int, want: Want, s: int)
  {
    var e := s + want.size - 1;
    && s >= 0 && Multiple(s, want.align)
    && root.start <= s && e <= root.end && want.min <= s && e <= want.max
    && forall i :: 0 <= i < |root.kids| && i != own ==> !Overlaps(root.kids[i], s, e)
  }

  /** A request: size, bounds, and the logarithm of the alignment. */
  datatype Want = Want(size: nat, min: nat, max: nat, align: nat)

  ghost predicate Sensible(want: Want)
  {
    0 < want.size < U64 && want.min < U64 && want.max < U64 && want.align <= 64
  }

  /**
   * The first child ends with the last 64-bit address and begins with root: the start of the
   * space behind it wraps around.
   */
  ghost predicate Wraps(root: Res, own: int)
  {
    root.kids != [] && own != 0 && root.kids[0].start == root.start && root.kids[0].end + 1 == U64
  }

  /** The part of the space from t to e that is inside [min, max] has room, and this is its first place. */
  method Candidate(want: Want, t: nat, e: nat) returns (t': nat, r: Option<nat>)
    requires Sensible(want) && t < U64 && e < U64
    ensures t' == if t < want.min then want.min else t
    ensures r.Some? ==>
      && t' <= r.value && r.value + want.size - 1 <= e && r.value + want.size - 1 <= want.max
      && Multiple(r.value, want.align)
    ensures r.Some? ==> forall s: nat :: s >= t' && Multiple(s, want.align) ==> s >= r.value
    ensures r.None? ==> forall s: nat :: s >= t' && Multiple(s, want.align) && s + want.size - 1 <= want.max ==>
      s + want.size - 1 > e
  {
    hide Pow2;
    t' := if t < want.min then want.min else t;
    var e' := if e > want.max then want.max else e;
    AlignWraps(t', want.align);
    var start := Align(t', want.align);
    forall s: nat | s >= t' && Multiple(s, want.align)
      ensures s >= RoundUp(t', want.align)
    {
      RoundUpLeast(t', want.align, s);
    }
    if start >= t' {
      var end := if start + want.size - 1 < U64 then start + want.size - 1 else start + want.size - 1 - U64;
      if start <= end && end <= e' {
        return t', Some(start);
      }
    }
    return t', None;
  }

  /** Every place that is left lies from t on, and the children in front of number i end below t. */
  ghost predicate Searched(root: Res, own: int, want: Want, t: nat, i: nat)
  {
    && i <= |root.kids| && root.start <= t < U64
    && (forall s :: Fits(root, own, want, s) ==> s >= t)
    && (forall j :: 0 <= j < i && j != own ==> root.kids[j].end < t)
  }

  /** A candidate in the space before child i, or before the end of root, is the lowest place. */
  lemma Found(root: Res, own: int, want: Want, t: nat, t': nat, i: nat, e: nat, s: nat)
    requires WellFormed(root) && Sensible(want) && Searched(root, own, want, t, i) && e < U64
    requires t' == (if t < want.min then want.min else t)
    requires e == if i == |root.kids| then root.end else if i == own then root.kids[i].end else root.kids[i].start - 1
    requires t' <= s && s + want.size - 1 <= e && s + want.size - 1 <= want.max && Multiple(s, want.align)
    requires forall x: nat :: x >= t' && Multiple(x, want.align) ==> x >= s
    ensures Lowest(root, own, want, Some(s))
  {
    hide Pow2;
    forall j | 0 <= j < |root.kids| && j != own
      ensures !Overlaps(root.kids[j], s, s + want.size - 1)
    {
      if j >= i {
        assert j > i ==> root.kids[i].end < root.kids[j].start;
      }
    }
    assert i < |root.kids| ==> root.kids[i].end <= root.end;
  }

  /** Without one, every place is behind child i. */
  lemma Passed(root: Res, own: int, want: Want, t: nat, t': nat, i: nat, e: int)
    requires WellFormed(root) && Sensible(want) && Searched(root, own, want, t, i)
    requires t' == t || t' == (if t < want.min then want.min else t)
    requires e == if i == |root.kids| then root.end else if i == own then root.kids[i].end else root.kids[i].start - 1
    requires e < t || forall x: nat :: x >= t' && Multiple(x, want.align) && x + want.size - 1 <= want.max ==>
      x + want.size - 1 > e
    ensures i == |root.kids| || root.kids[i].end == root.end ==> Lowest(root, own, want, None)
    ensures i < |root.kids| && root.kids[i].end < root.end ==>
      Searched(root, own, want, if i == own then t' else root.kids[i].end + 1, i + 1)
  {
    hide Pow2, Multiple;
    forall x | Fits(root, own, want, x)
      ensures x + want.size - 1 > e && x >= t'
      ensures i < |root.kids| && i != own ==> x > root.kids[i].end
    {
      var y: nat := x;
      assert y >= t' && Multiple(y, want.align);
      assert i < |root.kids| && i != own ==> !Overlaps(root.kids[i], x, x + want.size - 1);
    }
  }

  /** The addresses up to the end of root, all of them free. */
  ghost function Unlimited(root: Res): Res
  {
    Res(0, root.end, false, [])
  }

  lemma Untried(root: Res, want: Want)
    requires root.end < U64
    ensures WellFormed(Unlimited(root)) && Searched(Unlimited(root), -1, want, 0, 0)
  {
  }

  /** Found, and what it comes to where the start of the search has wrapped around. */
  lemma FoundHere(root: Res, own: int, want: Want, t: nat, t': nat, i: nat, e: nat, s: nat)
    requires WellFormed(root) && Sensible(want) && i <= |root.kids| && e < U64
    requires if Wraps(root, own) then i == |root.kids| && t == 0 else Searched(root, own, want, t, i)
    requires t' == (if t < want.min then want.min else t)
    requires e == if i == |root.kids| then root.end else if i == own then root.kids[i].end else root.kids[i].start - 1
    requires t' <= s && s + want.size - 1 <= e && s + want.size - 1 <= want.max && Multiple(s, want.align)
    requires forall x: nat :: x >= t' && Multiple(x, want.align) ==> x >= s
    ensures if Wraps(root, own) then Lowest(Unlimited(root), -1, want, Some(s)) else Lowest(root, own, want, Some(s))
  {
    hide Pow2, Multiple, Lowest, Fits, Searched;
    if Wraps(root, own) {
      Untried(root, want);
      Found(Unlimited(root), -1, want, t, t', 0, e, s);
    } else {
      Found(root, own, want, t, t', i, e, s);
    }
  }

  lemma PassedHere(root: Res, own: int, want: Want, t: nat, t': nat, i: nat, e: int)
    requires WellFormed(root) && Sensible(want) && i <= |root.kids|
    requires if Wraps(root, own) then i == |root.kids| && t == 0 else Searched(root, own, want, t, i)
    requires t' == t || t' == (if t < want.min then want.min else t)
    requires e == if i == |root.kids| then root.end else if i == own then root.kids[i].end else root.kids[i].start - 1
    requires e < t ||
      forall x: nat :: x >= t' && Multiple(x, want.align) && x + want.size - 1 <= want.max ==> x + want.size - 1 > e
    ensures i == |root.kids| || root.kids[i].end == root.end ==>
      if Wraps(root, own) then Lowest(Unlimited(root), -1, want, None) else Lowest(root, own, want, None)
    ensures i < |root.kids| && root.kids[i].end < root.end ==>
      Searched(root, own, want, if i == own then t' else root.kids[i].end + 1, i + 1)
  {
    hide Pow2, Multiple, Lowest, Fits, Searched;
    if Wraps(root, own) {
      Untried(root, want);
      Passed(Unlimited(root), -1, want, t, t', 0, e);
    } else {
      Passed(root, own, want, t, t', i, e);
    }
  }

  /** The search succeeded at the lowest place, or there is none. */
  ghost predicate Lowest(root: Res, own: int, want: Want, r: Option<nat>)
  {
    match r
    case Some(s) => Fits(root, own, want, s) && forall x :: Fits(root, own, want, x) ==> x >= s
    case None => forall x :: !Fits(root, own, want, x)
  }

  lemma StartSearch(root: Res, own: int, want: Want)
    requires WellFormed(root) && Sensible(want)
    ensures Wraps(root, own) ==> |root.kids| == 1
    ensures !Wraps(root, own) ==>
      if root.kids != [] && root.kids[0].start == root.start
      then Searched(root, own, want, if own == 0 then root.start else root.kids[0].end + 1, 1)
      else Searched(root, own, want, root.start, 0)
  {
    hide Pow2, Multiple;
    assert |root.kids| > 1 ==> root.kids[0].end < root.kids[1].start <= root.end;
    if root.kids != [] && root.kids[0].start == root.start && own != 0 {
      forall x | Fits(root, own, want, x)
        ensures x > root.kids[0].end
      {
        assert !Overlaps(root.kids[0], x, x + want.size - 1);
      }
    }
  }

  class ResourceTree {
    var root: Res

    ghost predicate Valid()
      reads this
    {
      WellFormed(root)
    }

    constructor (start: nat, end: nat)
      requires start <= end < U64
      ensures Valid() && root == Res(start, end, false, [])
    {
      root := Res(start, end, false, []);
    }

    /**
     * __find_resource with the default align function; own is the child being moved, or -1.  Where
     * the start of the search wraps around it looks at all addresses from 0 on, taken or not.
     */
    method Find(own: int, want: Want) returns (r: Option<nat>)
      requires Valid() && Sensible(want)
      ensures if Wraps(root, own) then Lowest(Unlimited(root), -1, want, r) else Lowest(root, own, want, r)
      ensures r.Some? ==> r.value + want.size - 1 < U64
    {
      hide Pow2, Fits, Multiple, Searched, Lowest, WellFormed;
      var n := |root.kids|;
      var t: nat, i: nat := root.start, 0;
      TakeApart(root);
      StartSearch(root, own, want);
      if n > 0 && root.kids[0].start == root.start {
        t := if own == 0 then root.kids[0].start else if root.kids[0].end + 1 < U64 then root.kids[0].end + 1 else 0;
        i := 1;
      }
      while true
        invariant i <= n && t < U64 && (i == 0 && n > 0 ==> root.start < root.kids[0].start)
        invariant if Wraps(root, own) then i == n && t == 0 else Searched(root, own, want, t, i)
        decreases n - i
      {
        assert 0 < i < n ==> root.kids[i - 1].end < root.kids[i].start;
        var e: nat := if i == n then root.end else if i == own then root.kids[i].end else root.kids[i].start - 1;
        var t' := t;
        if e >= t {
          t', r := Candidate(want, t, e);
          if r.Some? {
            FoundHere(root, own, want, t, t', i, e, r.value);
            return;
          }
        }
        PassedHere(root, own, want, t, t', i, e);
        if i == n || root.kids[i].end == root.end {
          return None;
        }
        t := if i == own then t' else root.kids[i].end + 1;
        i := i + 1;
      }
    }

    /**
     * __request_resource: r takes its place among the children of root, unless root does not
     * cover it or a child is in the way; then that one, the first, is the conflict.
     */
    method Request(r: Res) returns (conflict: Option<Res>, ghost at: nat)
      requires Valid() && (r.start <= r.end < U64 ==> WellFormed(r))
      modifies this
      ensures Valid() && (conflict.None? <==> Inside(root, r) && Free(old(root).kids, r.start, r.end))
      ensures conflict.None? ==> at <= |old(root).kids| && root == old(root).(kids := InsertAt(old(root).kids, at, r))
      ensures conflict.Some? ==> root == old(root)
      ensures conflict.Some? && !Inside(root, r) ==> conflict.value == root
      ensures conflict.Some? && Inside(root, r) ==>
        && at < |root.kids| && conflict.value == root.kids[at] && Overlaps(root.kids[at], r.start, r.end)
        && Free(root.kids[..at], r.start, r.end)
    {
      hide Pow2;
      at := 0;
      if r.end < r.start || r.start < root.start || r.end > root.end {
        return Some(root), at;
      }
      var i, hit := Scan(root, r.start, r.end);
      if hit {
        return Some(root.kids[i]), i;
      }
      InsertKeeps(root, i, r);
      assert Free(root.kids, r.start, r.end);
      root := root.(kids := InsertAt(root.kids, i, r));
      return None, i;
    }

    /** The walk of __request_resource: the first child that overlaps the range, or the place in front of which it
        goes */
    static method Scan(parent: Res, start: nat, end: nat) returns (i: nat, hit: bool)
      requires WellFormed(parent) && start <= end
      ensures i <= |parent.kids| && forall j :: 0 <= j < i ==> parent.kids[j].end < start
      ensures if hit then i < |parent.kids| && Overlaps(parent.kids[i], start, end)
        else forall j :: i <= j < |parent.kids| ==> end < parent.kids[j].start
    {
      hide Pow2;
      i := 0;
      while true
        invariant i <= |parent.kids| && forall j :: 0 <= j < i ==> parent.kids[j].end < start
        decreases |parent.kids| - i
      {
        if i == |parent.kids| || parent.kids[i].start > end {
          return i, false;
        }
        if parent.kids[i].end >= start {
          return i, true;
        }
        i := i + 1;
      }
    }

    /**
     * __insert_resource: r goes as deep as something strictly covers it and takes over the children it
     * covers there.  That works exactly when r nests with all there is.
     */
    method Insert(r: Res) returns (c: Conflict, path: seq<nat>, ghost at: nat, ghost to: nat)
      requires Valid() && r.kids == []
      modifies this
      ensures Valid()
      ensures c.NoConflict? <==> Inside(old(root), r) && NestsWithAll(old(root).kids, r.start, r.end)
      ensures c.NoConflict? ==> Inserted(old(root), root, path, at, to, r)
      ensures !c.NoConflict? ==> root == old(root)
      ensures c.WithRoot? <==> !Inside(root, r)
      ensures c.With? ==> Occurs(c.other, root.kids) && !Nested(c.other, r.start, r.end)
    {
      hide Pow2, NestsWithAll, WellFormed, Occurs;
      var p, i, hit := root, 0, true;
      path, at, to := [], 0, 0;
      if r.end < r.start || r.start < root.start || r.end > root.end {
        return WithRoot, path, at, to;
      }
      while true
        invariant IsPath(root, path) && p == Sub(root, path) && WellFormed(p) && Inside(p, r) && root == old(root)
        invariant NestsWithAll(root.kids, r.start, r.end) <==> NestsWithAll(p.kids, r.start, r.end)
        invariant forall x :: Occurs(x, p.kids) ==> Occurs(x, root.kids)
        invariant path != [] ==> !(p.start == r.start && p.end == r.end)
        decreases p
      {
        i, hit := Scan(p, r.start, r.end);
        if !hit {
          break;
        }
        var first := p.kids[i];
        if first.start > r.start || first.end < r.end || (first.start == r.start && first.end == r.end) {
          break;
        }
        GoDown(root, path, p, i, r);
        path, p := path + [i], first;
      }
      at, to := i, i;
      if hit {
        var j := i;
        while true
          invariant root == old(root) && i <= j < |p.kids| && Overlaps(p.kids[j], r.start, r.end)
          invariant forall m :: i <= m < j ==> r.start <= p.kids[m].start && p.kids[m].end <= r.end
          decreases |p.kids| - j
        {
          if p.kids[j].start < r.start || p.kids[j].end > r.end {
            InTheWay(p, i, j, r);
            return With(p.kids[j]), path, at, to;
          }
          if j + 1 == |p.kids| || p.kids[j + 1].start > r.end {
            break;
          }
          NextOverlaps(p, j, r);
          j := j + 1;
        }
        EndOfRun(p, j, r);
        to := j + 1;
        TakesOver(root, path, p, i, j + 1, r);
        root := Put(root, path, p.(kids := Adopt(p.kids, i, j + 1, r)));
      } else {
        TakesOver(root, path, p, i, i, r);
        root := Put(root, path, p.(kids := Adopt(p.kids, i, i, r)));
      }
      return NoConflict, path, at, to;
    }

    /**
     * insert_resource_expand_to_fit: unless root does not cover it, r gets in, after growing to the
     * least range around it that nests with all there is.
     */
    method InsertExpanding(r: Res) returns (placed: Option<Res>, path: seq<nat>, ghost at: nat, ghost to: nat)
      requires Valid() && r.kids == []
      modifies this
      ensures Valid()
      ensures placed.Some? <==> Inside(old(root), r)
      ensures placed.None? ==> root == old(root)
      ensures placed.Some? ==>
        && Inserted(old(root), root, path, at, to, placed.value)
        && LeastNesting(old(root).kids, r, placed.value)
    {
      hide Pow2, NestsWithAll, WellFormed, Inserted, Occurs;
      var n := r;
      while true
        invariant root == old(root) && Valid() && n.kids == [] && n.unset == r.unset
        invariant n.start <= r.start && r.end <= n.end && (Inside(root, r) <==> Inside(root, n))
        invariant forall a, b :: a <= r.start && r.end <= b && NestsWithAll(root.kids, a, b) ==>
          a <= n.start && n.end <= b
        decreases root.end + n.start - n.end
      {
        var c;
        c, path, at, to := Insert(n);
        if c.NoConflict? {
          return Some(n), path, at, to;
        }
        if c.WithRoot? {
          return None, path, at, to;
        }
        Widen(root, n, c.other);
        n := n.(start := if c.other.start < n.start then c.other.start else n.start,
                end := if c.other.end > n.end then c.other.end else n.end);
      }
    }

    /**
     * allocate_resource for a resource that has no parent yet: it is placed at the lowest
     * address that will do, and the answer is -EBUSY exactly when there is none.
     */
    method Allocate(want: Want) returns (r: Option<Res>, ghost at: nat)
      requires Valid() && Sensible(want)
      modifies this
      ensures Valid()
      ensures r.Some? ==>
        && r.value == Res(r.value.start, r.value.start + want.size - 1, false, [])
        && Lowest(old(root), -1, want, Some(r.value.start))
        && at <= |old(root).kids| && root == old(root).(kids := InsertAt(old(root).kids, at, r.value))
      ensures r.None? ==> Lowest(old(root), -1, want, None) && root == old(root)
    {
      hide Pow2, Multiple;
      at := 0;
      if Wraps(root, -1) {
        WrapIsFull(root, want);
      }
      var s := Find(-1, want);
      if s.None? {
        return None, at;
      }
      var found := Res(s.value, s.value + want.size - 1, false, []);
      FitsIsFree(root, want, s.value);
      var conflict;
      conflict, at := Request(found);
      return if conflict.Some? then None else Some(found), at;
    }

    /**
     * reallocate_resource on child k.  It moves to the lowest place that will do when it may: it
     * stays where it is if it only grows, and otherwise must have no children of its own.
     */
    method Reallocate(k: nat, want: Want) returns (ok: bool, ghost s: Option<nat>, ghost at: nat)
      requires Valid() && Sensible(want) && k < |root.kids|
      modifies this
      ensures Valid() && Lowest(old(root), k, want, s)
      ensures !ok ==> root == old(root)
      ensures
        var own := old(root).kids[k];
        ok <==>
          s.Some? && (own.kids == [] || (!own.unset && s.value <= own.start && own.end <= s.value + want.size - 1))
      ensures ok ==>
        var moved := old(root).kids[k].(start := s.value, end := s.value + want.size - 1);
        at < |old(root).kids| && root == old(root).(kids := InsertAt(RemoveAt(old(root).kids, k), at, moved))
    {
      hide Pow2, Multiple, WellFormed, Fits;
      at := k;
      NoWrapInside(root, k);
      var place := Find(k, want);
      s := place;
      if place.None? {
        return false, s, at;
      }
      var own := root.kids[k];
      var moved := own.(start := place.value, end := place.value + want.size - 1);
      if !own.unset && moved.start <= own.start && own.end <= moved.end {
        InPlace(root, k, want, place.value);
        root := root.(kids := InsertAt(RemoveAt(root.kids, k), k, moved));
        return true, s, at;
      }
      if own.kids != [] {
        return false, s, at;
      }
      if !own.unset && own.start <= moved.start && moved.end <= own.end {
        InPlace(root, k, want, place.value);
        root := root.(kids := InsertAt(RemoveAt(root.kids, k), k, moved));
      } else {
        RemoveKeeps(root, k);
        OthersFree(root, k, want, place.value);
        MovedWell(own, place.value, want);
        root := root.(kids := RemoveAt(root.kids, k));
        var conflict;
        conflict, at := Request(moved);
        assert conflict.None?;
      }
      return true, s, at;
    }

    /**
     * reallocate_resource on a resource further down, child k of the one at path.  The search knows
     * the children of root only, so a place it finds is outside the ancestor of the resource, which
     * then moves up, unless the start of the search has wrapped around: then the place need not be
     * free, and the resource changes where it is or the BUG_ON is reached with it off the tree.
     */
    method ReallocateBelow(path: seq<nat>, k: nat, want: Want) returns (r: Reply, ghost s: Option<nat>, ghost at: nat)
      requires Valid() && Sensible(want) && path != [] && IsPath(root, path) && k < |Sub(root, path).kids|
      modifies this
      ensures !Wraps(old(root), -1) ==> Valid() && Lowest(old(root), -1, want, s)
      ensures Wraps(old(root), -1) ==> Lowest(Unlimited(old(root)), -1, want, s)
      ensures
        var own := old(Sub(root, path)).kids[k];
        r.Busy? <==>
          s.None? || (own.kids != [] && (own.unset || s.value > own.start || own.end > s.value + want.size - 1))
      ensures r.Busy? ==> root == old(root)
      ensures
        var own := old(Sub(root, path)).kids[k];
        r.Bug? <==>
          && !r.Busy? && Wraps(old(root), -1)
          && (|| own.unset || (s.value > own.start && s.value + want.size - 1 > own.end)
              || (s.value < own.start && s.value + want.size - 1 < own.end))
      ensures r.Bug? ==> root == Released(old(root), path, k, true)
      ensures r.Done? ==>
        var own := old(Sub(root, path)).kids[k];
        var moved := own.(start := s.value, end := s.value + want.size - 1);
        if Wraps(old(root), -1) then root == Resized(old(root), path, k, moved)
        else
          var left := Released(old(root), path, k, true);
          own.kids == [] && at <= |left.kids| && root == left.(kids := InsertAt(left.kids, at, moved))
    {
      hide Pow2, Multiple, WellFormed;
      at := 0;
      var p := Sub(root, path);
      var own := p.kids[k];
      var place := Find(-1, want);
      s := place;
      if place.None? {
        return Busy, s, at;
      }
      var moved := own.(start := place.value, end := place.value + want.size - 1);
      if !Wraps(root, -1) {
        OutOfReach(root, path, k, want, place.value);
      }
      if !own.unset && moved.start <= own.start && own.end <= moved.end {
        root := Resized(root, path, k, moved);
        return Done, s, at;
      }
      if own.kids != [] {
        return Busy, s, at;
      }
      if !own.unset && own.start <= moved.start && moved.end <= own.end {
        root := Resized(root, path, k, moved);
        return Done, s, at;
      }
      ghost var was := root;
      MovedWell(own, place.value, want);
      StillCovered(root, path, k, want, place.value);
      Release(path, k, true);
      var conflict;
      conflict, at := Request(moved);
      return if conflict.None? then Done else Bug, s, at;
    }

    /** __release_resource on child k of the resource at path: its own children go with it, or take its place */
    method Release(path: seq<nat>, k: nat, releaseChild: bool)
      requires Valid() && IsPath(root, path) && k < |Sub(root, path).kids|
      modifies this
      ensures Valid() && root == Released(old(root), path, k, releaseChild)
    {
      hide Pow2, WellFormed;
      var p := Sub(root, path);
      SubKeeps(root, path);
      if releaseChild || p.kids[k].kids == [] {
        RemoveKeeps(p, k);
        assert p.kids[k].kids == [] ==> SpliceAt(p.kids, k) == RemoveAt(p.kids, k);
        PutKeeps(root, path, p.(kids := RemoveAt(p.kids, k)));
        root := Put(root, path, p.(kids := RemoveAt(p.kids, k)));
      } else {
        SpliceKeeps(p, k);
        PutKeeps(root, path, p.(kids := SpliceAt(p.kids, k)));
        root := Put(root, path, p.(kids := SpliceAt(p.kids, k)));
      }
    }

    /**
     * __reserve_region_with_split on a range inside root, when every allocation succeeds: all of
     * the range ends up taken, what was there stays, and a piece put aside is never dropped.
     */
    method ReserveInside(s: nat, e: nat)
      requires Valid() && root.start <= s && e <= root.end
      modifies this
      ensures Valid() && (root.start, root.end) == old((root.start, root.end))
        && Reserved(old(root).kids, root.kids, s, e)
    {
      hide Pow2, Covers, Kept, InsertAt;
      var a: nat, b: nat, aside: Option<(nat, nat)> := s, e, None;
      ghost var was, clear := root.kids, false;
      StartReserving(was, s, e);
      while true
        invariant Valid() && (root.start, root.end) == old((root.start, root.end))
        invariant if s <= e then Reserving(was, root.kids, s, e, a, b, aside) && (clear ==> Free(root.kids, a, b))
          && (aside.Some? ==> clear)
          else root.kids == was && a == s && b == e && aside == None
        decreases e + 1 - a, !clear
      {
        ghost var kids := root.kids;
        var conflict;
        ghost var at;
        conflict, at := Request(Res(a, b, false, []));
        if conflict.None? {
          PieceTaken(was, kids, s, e, a, b, aside, at);
          if aside.None? {
            return;
          }
          a, b, aside, clear := aside.value.0, aside.value.1, None, false;
          continue;
        }
        var c := conflict.value;
        if c.start <= a && b <= c.end {
          assert aside.None?;
          if s <= e {
            PieceCovered(was, kids, s, e, a, b, at);
          }
          return;
        }
        PieceSplit(was, kids, s, e, a, b, at, root.start, root.end);
        if c.start > a {
          if c.end < b {
            aside := Some((c.end + 1, b));
          }
          b, clear := c.start - 1, true;
        } else {
          a := c.end + 1;
        }
      }
    }

    /** reserve_region_with_split: the range is first cut down to root, or given up when it misses root */
    method ReserveWithSplit(start: nat, end: nat)
      requires Valid()
      modifies this
      ensures Valid() && (root.start, root.end) == old((root.start, root.end))
      ensures Reserved(old(root).kids, root.kids, if start < root.start then root.start else start,
        if end > root.end then root.end else end)
    {
      var s, e := start, end;
      if root.start > s || root.end < e {
        if s > root.end || e < root.start {
          StartReserving(root.kids, if s < root.start then root.start else s, if e > root.end then root.end else e);
          return;
        }
        if e > root.end {
          e := root.end;
        }
        if s < root.start {
          s := root.start;
        }
      }
      ReserveInside(s, e);
    }
  }

  ghost predicate Covers(kids: seq<Res>, x: int)
  {
    exists i :: 0 <= i < |kids| && kids[i].start <= x <= kids[i].end
  }

  /** The old children are all there, and the new ones are leaves inside [s, e]. */
  ghost predicate Kept(was: seq<Res>, kids: seq<Res>, s: nat, e: nat)
  {
    && (forall r :: r in was ==> r in kids)
    && (forall r :: r in kids ==> r in was || (s <= r.start && r.end <= e && r.kids == []))
  }

  /** Exactly the addresses of [s, e] that were not taken have been added. */
  ghost predicate Reserved(was: seq<Res>, kids: seq<Res>, s: nat, e: nat)
  {
    Kept(was, kids, s, e) && forall x :: Covers(kids, x) <==> Covers(was, x) || s <= x <= e
  }

  /** Everything below a is done; left are [a, b] and the piece put aside, and all else is covered. */
  ghost predicate Reserving(was: seq<Res>, kids: seq<Res>, s: nat, e: nat, a: nat, b: nat, aside: Option<(nat, nat)>)
  {
    && s <= a <= b <= e && Kept(was, kids, s, e)
    && (forall x :: Covers(kids, x) <==> Covers(was, x) || s <= x < a)
    && match aside
       case None => forall x :: b < x <= e ==> Covers(was, x)
       case Some((c, d)) => b < c <= d <= e && forall x :: b < x < c || d < x <= e ==> Covers(was, x)
  }

  lemma StartReserving(was: seq<Res>, s: nat, e: nat)
    ensures if s <= e then Reserving(was, was, s, e, s, e, None) else Reserved(was, was, s, e)
  {
  }

  lemma CoversInsert(kids: seq<Res>, at: nat, r: Res, x: int)
    requires at <= |kids|
    ensures Covers(InsertAt(kids, at, r), x) <==> Covers(kids, x) || r.start <= x <= r.end
  {
    var ks := InsertAt(kids, at, r);
    if i :| 0 <= i < |kids| && kids[i].start <= x <= kids[i].end {
      assert ks[if i < at then i else i + 1] == kids[i];
    }
    assert ks[at] == r;
  }

  lemma PieceTaken(was: seq<Res>, kids: seq<Res>, s: nat, e: nat, a: nat, b: nat, aside: Option<(nat, nat)>, at: nat)
    requires Reserving(was, kids, s, e, a, b, aside) && at <= |kids|
    ensures var ks := InsertAt(kids, at, Res(a, b, false, []));
      match aside
      case None => Reserved(was, ks, s, e)
      case Some((c, d)) => Reserving(was, ks, s, e, c, d, None)
  {
    hide Covers, InsertAt, Kept;
    var r := Res(a, b, false, []);
    var ks := InsertAt(kids, at, r);
    KeptInsert(was, kids, s, e, at, r);
    forall x
      ensures Covers(ks, x) <==> Covers(kids, x) || a <= x <= b
    {
      CoversInsert(kids, at, r, x);
    }
  }

  lemma KeptInsert(was: seq<Res>, kids: seq<Res>, s: nat, e: nat, at: nat, r: Res)
    requires Kept(was, kids, s, e) && at <= |kids| && s <= r.start <= r.end <= e && r.kids == []
    ensures Kept(was, InsertAt(kids, at, r), s, e)
  {
    var ks := InsertAt(kids, at, r);
    assert forall q :: q in kids ==> q in ks;
    assert forall q :: q in ks ==> q in kids || q == r;
  }

  lemma PieceCovered(was: seq<Res>, kids: seq<Res>, s: nat, e: nat, a: nat, b: nat, at: nat)
    requires Reserving(was, kids, s, e, a, b, None) && at < |kids| && kids[at].start <= a && b <= kids[at].end
    ensures Reserved(was, kids, s, e)
  {
    forall x | a <= x <= b
      ensures Covers(kids, x)
    {
    }
    hide Covers;
  }

  /** The first child in the way splits the piece: the part in front of it is free, it covers itself. */
  lemma PieceSplit(was: seq<Res>, kids: seq<Res>, s: nat, e: nat, a: nat, b: nat, at: nat, lo: nat, hi: nat)
    requires Reserving(was, kids, s, e, a, b, None) && at < |kids| && Overlaps(kids[at], a, b) && Free(kids[..at], a, b)
    requires !(kids[at].start <= a && b <= kids[at].end)
    requires Siblings(kids, lo, hi)
    ensures var c := kids[at];
      if c.start > a
      then Free(kids, a, c.start - 1)
        && Reserving(was, kids, s, e, a, c.start - 1, if c.end < b then Some((c.end + 1, b)) else None)
      else Reserving(was, kids, s, e, c.end + 1, b, None)
  {
    var c := kids[at];
    forall x | c.start <= x <= c.end
      ensures Covers(kids, x)
    {
      assert kids[at].start <= x <= kids[at].end;
    }
    if c.start > a {
      forall i | 0 <= i < |kids|
        ensures !Overlaps(kids[i], a, c.start - 1)
      {
        assert i < at ==> kids[..at][i] == kids[i];
        assert i > at ==> c.end < kids[i].start;
      }
    }
  }

  /** Child k replaced by its own children. */
  function SpliceAt(kids: seq<Res>, k: nat): seq<Res>
    requires k < |kids|
  {
    kids[..k] + kids[k].kids + kids[k + 1..]
  }

  lemma SpliceKeeps(root: Res, k: nat)
    requires WellFormed(root) && k < |root.kids|
    ensures WellFormed(root.(kids := SpliceAt(root.kids, k)))
  {
    TakeApart(root);
    TakeApart(root.kids[k]);
    hide WellFormed, Siblings, Pow2, AllWell;
    SpliceSiblings(root.kids, k, root.start, root.end);
    AllWellSwap(root.kids, k, k + 1, root.kids[k].kids);
    Assemble(root.(kids := SpliceAt(root.kids, k)));
  }

  lemma SpliceSiblings(kids: seq<Res>, k: nat, start: nat, end: nat)
    requires Siblings(kids, start, end) && k < |kids| && Siblings(kids[k].kids, kids[k].start, kids[k].end)
    ensures Siblings(SpliceAt(kids, k), start, end)
  {
    var own := kids[k];
    var ks, n := SpliceAt(kids, k), |own.kids|;
    forall i, j | 0 <= i < j < |ks|
      ensures ks[i].end < ks[j].start
    {
      assert ks[i] == if i < k then kids[i] else if i < k + n then own.kids[i - k] else kids[i - n + 1];
      assert ks[j] == if j < k then kids[j] else if j < k + n then own.kids[j - k] else kids[j - n + 1];
    }
    forall i | 0 <= i < |ks|
      ensures start <= ks[i].start <= ks[i].end <= end
    {
      assert ks[i] == if i < k then kids[i] else if i < k + n then own.kids[i - k] else kids[i - n + 1];
    }
  }

  ghost function Moved(own: Res, s: nat, want: Want): Res
  {
    own.(start := s, end := s + (if want.size > 0 then want.size - 1 else 0))
  }

  datatype Reply = Done | Busy | Bug

  /** The wanted range contains the one there is, or lies in it. */
  ghost predicate InReach(own: Res, s: nat, want: Want)
  {
    var e := s + want.size - 1;
    !own.unset && ((s <= own.start && own.end <= e) || (own.start <= s && e <= own.end))
  }

  /** root with x for child k of the resource at path. */
  function Resized(root: Res, path: seq<nat>, k: nat, x: Res): Res
    requires IsPath(root, path) && k < |Sub(root, path).kids|
  {
    var p := Sub(root, path);
    Put(root, path, p.(kids := p.kids[k := x]))
  }

  lemma MovedWell(own: Res, s: nat, want: Want)
    requires own.kids == [] && Sensible(want) && s + want.size - 1 < U64
    ensures WellFormed(Moved(own, s, want))
  {
  }

  /** What lies further down is inside the child of root that path goes through. */
  lemma {:induction false} BelowFirst(r: Res, path: seq<nat>)
    requires WellFormed(r) && IsPath(r, path)
    ensures r.start <= Sub(r, path).start && Sub(r, path).end <= r.end && WellFormed(Sub(r, path))
    decreases |path|
  {
    hide Pow2;
    if path != [] {
      BelowFirst(r.kids[path[0]], path[1..]);
    }
  }

  /** A free place among the children of root neither contains nor touches what is below them. */
  lemma OutOfReach(root: Res, path: seq<nat>, k: nat, want: Want, s: nat)
    requires WellFormed(root) && Sensible(want) && path != [] && IsPath(root, path) && k < |Sub(root, path).kids|
    requires Fits(root, -1, want, s)
    ensures !InReach(Sub(root, path).kids[k], s, want)
  {
    hide Pow2, Multiple;
    var top := root.kids[path[0]];
    BelowFirst(top, path[1..]);
    assert !Overlaps(top, s, s + want.size - 1);
    var p := Sub(root, path);
    assert p.start <= p.kids[k].start <= p.kids[k].end <= p.end;
  }

  /** The release leaves the ranges of the children of root alone, so that the same places are free. */
  lemma StillCovered(root: Res, path: seq<nat>, k: nat, want: Want, s: nat)
    requires WellFormed(root) && Sensible(want) && path != [] && IsPath(root, path) && k < |Sub(root, path).kids|
    requires Lowest(if Wraps(root, -1) then Unlimited(root) else root, -1, want, Some(s))
    ensures var left, r := Released(root, path, k, true), Moved(Sub(root, path).kids[k], s, want);
      Inside(left, r) && Free(left.kids, r.start, r.end) <==> !Wraps(root, -1)
  {
    hide Pow2, Multiple;
    var p := Sub(root, path);
    SameRanges(root, path, p.(kids := RemoveAt(p.kids, k)));
    var left, e := Released(root, path, k, true), s + want.size - 1;
    if Wraps(root, -1) {
      assert Inside(left, Moved(p.kids[k], s, want)) ==> Overlaps(left.kids[0], s, e);
    } else {
      assert forall j :: 0 <= j < |left.kids| ==> Overlaps(left.kids[j], s, e) == Overlaps(root.kids[j], s, e);
    }
  }

  lemma SameRanges(r: Res, path: seq<nat>, x: Res)
    requires WellFormed(r) && path != [] && IsPath(r, path)
    requires x.start == Sub(r, path).start && x.end == Sub(r, path).end
    ensures var left := Put(r, path, x);
      && left.start == r.start && left.end == r.end && |left.kids| == |r.kids|
      && forall j :: 0 <= j < |r.kids| ==> left.kids[j].start == r.kids[j].start && left.kids[j].end == r.kids[j].end
  {
    PutEnds(r.kids[path[0]], path[1..], x);
  }

  lemma PutEnds(r: Res, path: seq<nat>, x: Res)
    requires IsPath(r, path) && x.start == Sub(r, path).start && x.end == Sub(r, path).end
    ensures Put(r, path, x).start == r.start && Put(r, path, x).end == r.end
  {
  }

  lemma NoWrapInside(root: Res, k: nat)
    requires WellFormed(root) && k < |root.kids|
    ensures !Wraps(root, k)
  {
    hide Pow2;
    assert k > 0 ==> root.kids[0].end < root.kids[k].start;
  }

  lemma OthersFree(root: Res, k: nat, want: Want, s: nat)
    requires WellFormed(root) && want.size > 0 && k < |root.kids| && Fits(root, k, want, s)
    ensures Free(RemoveAt(root.kids, k), s, s + want.size - 1) && Inside(root, Moved(root.kids[k], s, want))
  {
    var ks := RemoveAt(root.kids, k);
    forall j | 0 <= j < |ks|
      ensures !Overlaps(ks[j], s, s + want.size - 1)
    {
      assert ks[j] == root.kids[if j < k then j else j + 1];
    }
  }

  /** A child that grows or shrinks where it is keeps its place among its siblings. */
  lemma InPlace(root: Res, k: nat, want: Want, s: nat)
    requires WellFormed(root) && Sensible(want) && k < |root.kids| && Fits(root, k, want, s)
    requires var own, moved := root.kids[k], Moved(root.kids[k], s, want);
      (moved.start <= own.start && own.end <= moved.end)
        || (own.kids == [] && own.start <= moved.start && moved.end <= own.end)
    ensures WellFormed(root.(kids := InsertAt(RemoveAt(root.kids, k), k, Moved(root.kids[k], s, want))))
  {
    hide Pow2, Multiple;
    RemoveKeeps(root, k);
    var moved := Moved(root.kids[k], s, want);
    var without := root.(kids := RemoveAt(root.kids, k));
    assert WellFormed(moved);
    forall j | 0 <= j < |without.kids|
      ensures if j < k then without.kids[j].end < moved.start else moved.end < without.kids[j].start
    {
      var i := if j < k then j else j + 1;
      assert without.kids[j] == root.kids[i] && !Overlaps(root.kids[i], s, s + want.size - 1);
    }
    InsertKeeps(without, k, moved);
  }

  // ----- resources at any depth -----

  /** path leads down from r, child number by child number. */
  predicate IsPath(r: Res, path: seq<nat>)
    decreases |path|
  {
    path == [] || (path[0] < |r.kids| && IsPath(r.kids[path[0]], path[1..]))
  }

  function Sub(r: Res, path: seq<nat>): Res
    requires IsPath(r, path)
    decreases |path|
  {
    if path == [] then r else Sub(r.kids[path[0]], path[1..])
  }

  /** r with x in the place of the resource at path. */
  function Put(r: Res, path: seq<nat>, x: Res): Res
    requires IsPath(r, path)
    decreases |path|
  {
    if path == [] then x else r.(kids := r.kids[path[0] := Put(r.kids[path[0]], path[1..], x)])
  }

  lemma {:induction false} SubKeeps(r: Res, path: seq<nat>)
    requires WellFormed(r) && IsPath(r, path)
    ensures WellFormed(Sub(r, path))
    decreases |path|
  {
    if path != [] {
      SubKeeps(r.kids[path[0]], path[1..]);
    }
  }

  lemma {:induction false} PutKeeps(r: Res, path: seq<nat>, x: Res)
    requires WellFormed(r) && IsPath(r, path) && WellFormed(x)
    requires x.start == Sub(r, path).start && x.end == Sub(r, path).end
    ensures WellFormed(Put(r, path, x)) && Put(r, path, x).start == r.start && Put(r, path, x).end == r.end
    decreases |path|
  {
    hide Pow2;
    if path != [] {
      PutKeeps(r.kids[path[0]], path[1..], x);
    }
  }

  /** What was put is found, putting again forgets it, and putting back what was there undoes it. */
  lemma {:induction false} PutSub(r: Res, path: seq<nat>, x: Res, y: Res)
    requires IsPath(r, path)
    ensures IsPath(Put(r, path, x), path) && Sub(Put(r, path, x), path) == x
    ensures Put(Put(r, path, x), path, y) == Put(r, path, y)
    ensures Put(r, path, Sub(r, path)) == r
    decreases |path|
  {
    if path != [] {
      PutSub(r.kids[path[0]], path[1..], x, y);
      assert r.kids[path[0] := r.kids[path[0]]] == r.kids;
      var z := Put(r.kids[path[0]], path[1..], x);
      var w := Put(r.kids[path[0]], path[1..], y);
      assert r.kids[path[0] := z][path[0] := w] == r.kids[path[0] := w];
    }
  }

  lemma {:induction false} SubStep(r: Res, path: seq<nat>, i: nat)
    requires IsPath(r, path) && i < |Sub(r, path).kids|
    ensures IsPath(r, path + [i]) && Sub(r, path + [i]) == Sub(r, path).kids[i]
    decreases |path|
  {
    if path != [] {
      SubStep(r.kids[path[0]], path[1..], i);
      assert (path + [i])[1..] == path[1..] + [i];
    } else {
      assert (path + [i])[1..] == [];
    }
  }

  function Released(r: Res, path: seq<nat>, k: nat, releaseChild: bool): Res
    requires IsPath(r, path) && k < |Sub(r, path).kids|
  {
    var p := Sub(r, path);
    Put(r, path, p.(kids := if releaseChild then RemoveAt(p.kids, k) else SpliceAt(p.kids, k)))
  }

  // ----- what is in the tree -----

  /** A resource without its children. */
  datatype Span = Span(start: nat, end: nat, unset: bool)

  ghost function Own(r: Res): Span
  {
    Span(r.start, r.end, r.unset)
  }

  /** The resource and all below it. */
  ghost function Spans(r: Res): multiset<Span>
    decreases r
  {
    multiset{Own(r)} + SpansOf(r.kids)
  }

  ghost function SpansOf(kids: seq<Res>): multiset<Span>
    decreases kids
  {
    if kids == [] then multiset{} else Spans(kids[0]) + SpansOf(kids[1..])
  }

  lemma Balance(a: multiset<Span>, b: multiset<Span>, c: multiset<Span>, d: multiset<Span>, x: multiset<Span>,
                y: multiset<Span>)
    requires a + b == c + d && d + x == b + y
    ensures a + x == c + y
  {
    forall t
      ensures (a + x)[t] == (c + y)[t]
    {
      assert (a + b)[t] == (c + d)[t] && (d + x)[t] == (b + y)[t];
    }
  }

  lemma OnTop(o: Span, a: multiset<Span>, x: multiset<Span>, b: multiset<Span>, y: multiset<Span>)
    requires a + x == b + y
    ensures multiset{o} + a + x == multiset{o} + b + y
  {
    assert multiset{o} + a + x == multiset{o} + (a + x) && multiset{o} + b + y == multiset{o} + (b + y);
  }

  lemma SpansIs(r: Res)
    ensures Spans(r) == multiset{Own(r)} + SpansOf(r.kids)
  {
  }

  lemma SpansCons(r: Res, kids: seq<Res>)
    ensures SpansOf([r] + kids) == Spans(r) + SpansOf(kids) && SpansOf([]) == multiset{}
  {
    hide Spans;
    assert ([r] + kids)[1..] == kids;
  }

  lemma {:induction false} SpansJoin(a: seq<Res>, b: seq<Res>)
    ensures SpansOf(a + b) == SpansOf(a) + SpansOf(b)
  {
    hide Spans, SpansOf;
    if a == [] {
      assert a + b == b;
      SpansCons(Res(0, 0, false, []), []);
    } else {
      SpansJoin(a[1..], b);
      SpansCons(a[0], a[1..]);
      SpansCons(a[0], a[1..] + b);
      assert a == [a[0]] + a[1..] && a + b == [a[0]] + (a[1..] + b);
    }
  }

  /** The resources new_ in the place of the children from i to j. */
  lemma SpansSwap(kids: seq<Res>, i: nat, j: nat, new_: seq<Res>)
    requires i <= j <= |kids|
    ensures SpansOf(kids[..i] + new_ + kids[j..]) + SpansOf(kids[i..j]) == SpansOf(kids) + SpansOf(new_)
  {
    hide Spans, SpansOf;
    assert kids == kids[..i] + (kids[i..j] + kids[j..]);
    SpansJoin(kids[..i], kids[i..j] + kids[j..]);
    SpansJoin(kids[i..j], kids[j..]);
    SpansJoin(kids[..i], new_);
    SpansJoin(kids[..i] + new_, kids[j..]);
  }

  lemma SpansOne(r: Res)
    ensures SpansOf([r]) == Spans(r) && SpansOf([]) == multiset{}
  {
    hide Spans, SpansOf;
    SpansCons(r, []);
    assert [r] + [] == [r];
  }

  lemma {:induction false} SpansPut(r: Res, path: seq<nat>, x: Res)
    requires IsPath(r, path)
    ensures Spans(Put(r, path, x)) + Spans(Sub(r, path)) == Spans(r) + Spans(x)
    decreases |path|
  {
    hide Spans, SpansOf;
    if path != [] {
      var i, kid := path[0], r.kids[path[0]];
      var kid' := Put(kid, path[1..], x);
      SpansPut(kid, path[1..], x);
      SpansSwap(r.kids, i, i + 1, [kid']);
      SpansOne(kid);
      SpansOne(kid');
      SpansIs(r);
      SpansIs(Put(r, path, x));
      assert r.kids[i := kid'] == r.kids[..i] + [kid'] + r.kids[i + 1..] && r.kids[i..i + 1] == [kid];
      Balance(SpansOf(r.kids[i := kid']), Spans(kid), SpansOf(r.kids), Spans(kid'), Spans(Sub(r, path)), Spans(x));
      OnTop(Own(r), SpansOf(r.kids[i := kid']), Spans(Sub(r, path)), SpansOf(r.kids), Spans(x));
    } else {
      assert Spans(x) + Spans(r) == Spans(r) + Spans(x);
    }
  }

  /** A released resource is gone, with all below it or alone, and everything else is still there. */
  lemma ReleasedSpans(r: Res, path: seq<nat>, k: nat, releaseChild: bool)
    requires IsPath(r, path) && k < |Sub(r, path).kids|
    ensures
      var own := Sub(r, path).kids[k];
      Spans(Released(r, path, k, releaseChild)) + (if releaseChild then Spans(own) else multiset{Own(own)}) == Spans(r)
  {
    hide Spans, SpansOf;
    var p := Sub(r, path);
    var own, rest := p.kids[k], if releaseChild then [] else p.kids[k].kids;
    var q := p.(kids := p.kids[..k] + rest + p.kids[k + 1..]);
    assert releaseChild ==> q.kids == RemoveAt(p.kids, k);
    assert p.kids[k..k + 1] == [own];
    SpansOne(own);
    SpansIs(own);
    SpansSwap(p.kids, k, k + 1, rest);
    SpansIs(p);
    SpansIs(q);
    SpansPut(r, path, q);
    var gone := if releaseChild then Spans(own) else multiset{Own(own)};
    Balance(SpansOf(q.kids), Spans(own), SpansOf(p.kids), SpansOf(rest), gone, multiset{});
    OnTop(Own(p), SpansOf(q.kids), gone, SpansOf(p.kids), multiset{});
    Balance(Spans(Put(r, path, q)), Spans(p), Spans(r), Spans(q), gone, multiset{});
  }

  /** A requested or allocated resource is new with all below it. */
  lemma RequestedSpans(root: Res, at: nat, r: Res)
    requires at <= |root.kids|
    ensures Spans(root.(kids := InsertAt(root.kids, at, r))) == Spans(root) + Spans(r)
  {
    hide Spans, SpansOf;
    SpansOne(r);
    SpansSwap(root.kids, at, at, [r]);
    assert root.kids[at..at] == [];
    OnTop(Own(root), SpansOf(InsertAt(root.kids, at, r)), multiset{}, SpansOf(root.kids), Spans(r));
    SpansIs(root);
    SpansIs(root.(kids := InsertAt(root.kids, at, r)));
  }

  /** A reallocated child has its new range, and all else, below it too, is as before. */
  lemma ReallocatedSpans(root: Res, k: nat, at: nat, start: nat, end: nat)
    requires k < |root.kids| && at < |root.kids|
    ensures
      var moved := root.kids[k].(start := start, end := end);
      Spans(root.(kids := InsertAt(RemoveAt(root.kids, k), at, moved))) + multiset{Own(root.kids[k])}
        == Spans(root) + multiset{Own(moved)}
  {
    hide Spans, SpansOf;
    var own, moved := root.kids[k], root.kids[k].(start := start, end := end);
    var left := root.(kids := RemoveAt(root.kids, k));
    ReleasedSpans(root, [], k, true);
    RequestedSpans(left, at, moved);
    SpansIs(own);
    SpansIs(moved);
    var now := root.(kids := InsertAt(left.kids, at, moved));
    Balance(Spans(now), Spans(own), Spans(root), Spans(moved), multiset{Own(own)}, multiset{Own(moved)});
  }

  // ----- insertion -----

  datatype Conflict = NoConflict | WithRoot | With(other: Res)

  /** The range [a, b] misses r, lies in it, or covers it. */
  ghost predicate Nested(r: Res, a: int, b: int)
  {
    !Overlaps(r, a, b) || (r.start <= a && b <= r.end) || (a <= r.start && r.end <= b)
  }

  /** So it does with the children and everything below them. */
  ghost predicate NestsWithAll(kids: seq<Res>, a: int, b: int)
  {
    forall i :: 0 <= i < |kids| ==> Nested(kids[i], a, b) && NestsWithAll(kids[i].kids, a, b)
  }

  /** x is one of the children or somewhere below them. */
  ghost predicate Occurs(x: Res, kids: seq<Res>)
  {
    exists i :: 0 <= i < |kids| && (kids[i] == x || Occurs(x, kids[i].kids))
  }

  /** r in the place of the children from i to j, which become its own. */
  function Adopt(kids: seq<Res>, i: nat, j: nat, r: Res): seq<Res>
    requires i <= j <= |kids|
  {
    kids[..i] + [r.(kids := kids[i..j])] + kids[j..]
  }

  /** The children of p from at to to lie in r and the others miss it: none of them covers r but an equal one. */
  ghost predicate Splits(p: Res, at: nat, to: nat, r: Res)
  {
    forall j :: 0 <= j < |p.kids| ==>
      if at <= j < to then r.start <= p.kids[j].start && p.kids[j].end <= r.end
      else !Overlaps(p.kids[j], r.start, r.end)
  }

  /**
   * r sits under the resource at path, the deepest one that strictly covers it or else the root, and
   * holds those of its children, from at to to, that lie in r.  One with the range of r is among them.
   */
  ghost predicate Inserted(was: Res, now: Res, path: seq<nat>, at: nat, to: nat, r: Res)
  {
    && IsPath(was, path) && at <= to <= |Sub(was, path).kids|
    && Inside(Sub(was, path), r) && Splits(Sub(was, path), at, to, r)
    && (path != [] ==> !(Sub(was, path).start == r.start && Sub(was, path).end == r.end))
    && now == Put(was, path, Sub(was, path).(kids := Adopt(Sub(was, path).kids, at, to, r)))
  }

  /** n is the least range around r that nests with everything. */
  ghost predicate LeastNesting(kids: seq<Res>, r: Res, n: Res)
  {
    && n.start <= r.start && r.end <= n.end && NestsWithAll(kids, n.start, n.end)
    && forall a, b :: a <= r.start && r.end <= b && NestsWithAll(kids, a, b) ==> a <= n.start && n.end <= b
  }

  /** remove_resource undoes insert_resource. */
  lemma RemoveUndoesInsert(was: Res, now: Res, path: seq<nat>, at: nat, to: nat, r: Res)
    requires Inserted(was, now, path, at, to, r)
    ensures IsPath(now, path) && at < |Sub(now, path).kids| && Sub(now, path).kids[at].start == r.start
      && Sub(now, path).kids[at].end == r.end
    ensures Released(now, path, at, false) == was
  {
    var p := Sub(was, path);
    var q := p.(kids := Adopt(p.kids, at, to, r));
    PutSub(was, path, q, p);
    assert SpliceAt(q.kids, at) == p.kids;
  }

  /** An inserted resource is new, and everything else is still there. */
  lemma InsertedSpans(was: Res, now: Res, path: seq<nat>, at: nat, to: nat, r: Res)
    requires Inserted(was, now, path, at, to, r)
    ensures Spans(now) == Spans(was) + multiset{Own(r)}
  {
    RemoveUndoesInsert(was, now, path, at, to, r);
    ReleasedSpans(now, path, at, false);
    var p := Sub(was, path);
    PutSub(was, path, p.(kids := Adopt(p.kids, at, to, r)), p);
    hide Spans;
  }

  /** A resource that misses the range, or lies in it, has nothing below it that crosses the range. */
  lemma {:induction false} BelowNests(r: Res, a: int, b: int)
    requires WellFormed(r) && (!Overlaps(r, a, b) || (a <= r.start && r.end <= b))
    ensures NestsWithAll(r.kids, a, b)
    decreases r
  {
    hide Pow2;
    forall i | 0 <= i < |r.kids|
      ensures Nested(r.kids[i], a, b) && NestsWithAll(r.kids[i].kids, a, b)
    {
      BelowNests(r.kids[i], a, b);
    }
  }

  /** Child i strictly covers r: all else misses r, and what matters is below child i. */
  lemma GoDown(root: Res, path: seq<nat>, p: Res, i: nat, r: Res)
    requires IsPath(root, path) && p == Sub(root, path) && WellFormed(p) && i < |p.kids|
    requires r.start <= r.end && p.kids[i].start <= r.start && r.end <= p.kids[i].end
    ensures IsPath(root, path + [i]) && Sub(root, path + [i]) == p.kids[i] && WellFormed(p.kids[i])
    ensures NestsWithAll(p.kids, r.start, r.end) <==> NestsWithAll(p.kids[i].kids, r.start, r.end)
    ensures forall x :: Occurs(x, p.kids[i].kids) ==> Occurs(x, p.kids)
  {
    hide Pow2;
    SubStep(root, path, i);
    forall j | 0 <= j < |p.kids| && j != i
      ensures Nested(p.kids[j], r.start, r.end) && NestsWithAll(p.kids[j].kids, r.start, r.end)
    {
      assert if j < i then p.kids[j].end < p.kids[i].start else p.kids[i].end < p.kids[j].start;
      BelowNests(p.kids[j], r.start, r.end);
    }
  }

  /** Child j sticks out of r. */
  lemma InTheWay(p: Res, i: nat, j: nat, r: Res)
    requires WellFormed(p) && i <= j < |p.kids| && Overlaps(p.kids[j], r.start, r.end) && r.start <= r.end
    requires p.kids[j].start < r.start || p.kids[j].end > r.end
    requires j == i ==> p.kids[i].start > r.start || p.kids[i].end < r.end
    requires i < j ==> Overlaps(p.kids[i], r.start, r.end)
    ensures !Nested(p.kids[j], r.start, r.end) && !NestsWithAll(p.kids, r.start, r.end) && Occurs(p.kids[j], p.kids)
  {
    hide Pow2;
    assert i < j ==> p.kids[i].end < p.kids[j].start;
  }

  lemma NextOverlaps(p: Res, j: nat, r: Res)
    requires WellFormed(p) && j + 1 < |p.kids| && p.kids[j + 1].start <= r.end
    requires Overlaps(p.kids[j], r.start, r.end)
    ensures Overlaps(p.kids[j + 1], r.start, r.end)
  {
    hide Pow2;
    assert p.kids[j].end < p.kids[j + 1].start;
  }

  lemma EndOfRun(p: Res, j: nat, r: Res)
    requires WellFormed(p) && j < |p.kids| && (j + 1 == |p.kids| || p.kids[j + 1].start > r.end)
    ensures forall m :: j + 1 <= m < |p.kids| ==> p.kids[m].start > r.end
  {
    hide Pow2;
    forall m | j + 1 < m < |p.kids|
      ensures p.kids[m].start > r.end
    {
      assert p.kids[j + 1].end < p.kids[m].start;
    }
  }

  /** r takes over the children from i to j, all inside it, and misses the others. */
  lemma TakesOver(root: Res, path: seq<nat>, p: Res, i: nat, j: nat, r: Res)
    requires WellFormed(root) && IsPath(root, path) && p == Sub(root, path) && WellFormed(p) && Inside(p, r)
    requires i <= j <= |p.kids| && (forall m :: 0 <= m < i ==> p.kids[m].end < r.start)
    requires forall m :: i <= m < j ==> r.start <= p.kids[m].start && p.kids[m].end <= r.end
    requires forall m :: j <= m < |p.kids| ==> r.end < p.kids[m].start
    ensures WellFormed(Put(root, path, p.(kids := Adopt(p.kids, i, j, r))))
    ensures NestsWithAll(p.kids, r.start, r.end) && Splits(p, i, j, r)
  {
    hide Pow2;
    AdoptKeeps(p, i, j, r);
    PutKeeps(root, path, p.(kids := Adopt(p.kids, i, j, r)));
    forall m | 0 <= m < |p.kids|
      ensures Nested(p.kids[m], r.start, r.end) && NestsWithAll(p.kids[m].kids, r.start, r.end)
    {
      BelowNests(p.kids[m], r.start, r.end);
    }
  }

  lemma AdoptKeeps(p: Res, i: nat, j: nat, r: Res)
    requires WellFormed(p) && Inside(p, r)
    requires i <= j <= |p.kids| && (forall m :: 0 <= m < i ==> p.kids[m].end < r.start)
    requires forall m :: i <= m < j ==> r.start <= p.kids[m].start && p.kids[m].end <= r.end
    requires forall m :: j <= m < |p.kids| ==> r.end < p.kids[m].start
    ensures WellFormed(p.(kids := Adopt(p.kids, i, j, r)))
  {
    var own := r.(kids := p.kids[i..j]);
    AdopterKeeps(p, i, j, own);
    TakeApart(p);
    hide WellFormed, Siblings, Pow2;
    AdoptSiblings(p.kids, i, j, own, p.start, p.end);
    AllWellSwap(p.kids, i, j, [own]);
    Assemble(p.(kids := Adopt(p.kids, i, j, r)));
  }

  lemma AdopterKeeps(p: Res, i: nat, j: nat, own: Res)
    requires WellFormed(p) && Inside(p, own) && i <= j <= |p.kids| && own.kids == p.kids[i..j]
    requires forall m :: i <= m < j ==> own.start <= p.kids[m].start && p.kids[m].end <= own.end
    ensures WellFormed(own)
  {
    hide Pow2;
    forall m | 0 <= m < |own.kids|
      ensures own.start <= own.kids[m].start <= own.kids[m].end <= own.end && WellFormed(own.kids[m])
    {
      assert own.kids[m] == p.kids[i + m];
    }
    forall m, n | 0 <= m < n < |own.kids|
      ensures own.kids[m].end < own.kids[n].start
    {
      assert own.kids[m] == p.kids[i + m] && own.kids[n] == p.kids[i + n];
    }
  }

  lemma AdoptSiblings(kids: seq<Res>, i: nat, j: nat, own: Res, start: nat, end: nat)
    requires Siblings(kids, start, end) && start <= own.start <= own.end <= end && i <= j <= |kids|
    requires forall m :: 0 <= m < i ==> kids[m].end < own.start
    requires forall m :: j <= m < |kids| ==> own.end < kids[m].start
    ensures Siblings(kids[..i] + [own] + kids[j..], start, end)
  {
    var ks := kids[..i] + [own] + kids[j..];
    forall m, n | 0 <= m < n < |ks|
      ensures ks[m].end < ks[n].start
    {
      assert ks[m] == if m < i then kids[m] else if m == i then own else kids[m - i - 1 + j];
      assert ks[n] == if n < i then kids[n] else if n == i then own else kids[n - i - 1 + j];
    }
    forall m | 0 <= m < |ks|
      ensures start <= ks[m].start <= ks[m].end <= end
    {
      assert ks[m] == if m < i then kids[m] else if m == i then own else kids[m - i - 1 + j];
    }
  }

  /** Any range around n that nests with everything covers what n crosses. */
  lemma Widen(root: Res, n: Res, x: Res)
    requires WellFormed(root) && Occurs(x, root.kids) && !Nested(x, n.start, n.end)
    ensures root.start <= x.start <= x.end <= root.end && (x.start < n.start || n.end < x.end)
    ensures forall a, b :: a <= n.start && n.end <= b && NestsWithAll(root.kids, a, b) ==> a <= x.start && x.end <= b
  {
    hide Pow2;
    OccursInside(root, x);
    forall a, b | a <= n.start && n.end <= b && NestsWithAll(root.kids, a, b)
      ensures a <= x.start && x.end <= b
    {
      OccursNests(x, root.kids, a, b);
    }
  }

  lemma {:induction false} OccursInside(r: Res, x: Res)
    requires WellFormed(r) && Occurs(x, r.kids)
    ensures r.start <= x.start <= x.end <= r.end
    decreases r
  {
    hide Pow2;
    var i :| 0 <= i < |r.kids| && (r.kids[i] == x || Occurs(x, r.kids[i].kids));
    if r.kids[i] != x {
      OccursInside(r.kids[i], x);
    }
  }

  lemma {:induction false} OccursNests(x: Res, kids: seq<Res>, a: int, b: int)
    requires Occurs(x, kids) && NestsWithAll(kids, a, b)
    ensures Nested(x, a, b)
    decreases kids
  {
    var i :| 0 <= i < |kids| && (kids[i] == x || Occurs(x, kids[i].kids));
    if kids[i] != x {
      OccursNests(x, kids[i].kids, a, b);
    }
  }

  ghost predicate Inside(root: Res, r: Res)
  {
    root.start <= r.start <= r.end <= root.end
  }

  lemma FitsIsFree(root: Res, want: Want, s: nat)
    requires want.size > 0
    ensures Fits(root, -1, want, s) ==>
      Inside(root, Res(s, s + want.size - 1, false, [])) && Free(root.kids, s, s + want.size - 1)
  {
  }

  /** When the first child takes all of root, nothing fits. */
  lemma WrapIsFull(root: Res, want: Want)
    requires WellFormed(root) && Sensible(want) && Wraps(root, -1)
    ensures Lowest(root, -1, want, None)
  {
    hide Pow2;
    forall x
      ensures !Fits(root, -1, want, x)
    {
      var e := x + want.size - 1;
      assert x < root.start || e > root.end || Overlaps(root.kids[0], x, e);
    }
  }

  /** A child as wide as the address space, with one resource below it. */
  function Full(): Res
  {
    Res(0, U64 - 1, false, [Res(1, 1, false, [])])
  }

  lemma FullWell()
    ensures U64 >= 4 && WellFormed(Full())
  {
    assert Pow2(64) == 2 * Pow2(63) && Pow2(63) == 2 * Pow2(62);
    hide Pow2;
    Assemble(Res(1, 1, false, []));
    Assemble(Full());
  }

  lemma FullPlace(root: Res, s: Option<nat>)
    requires root.end == U64 - 1 && U64 >= 4 && Lowest(Unlimited(root), -1, Want(1, 2, 2, 0), s)
    ensures s == Some(2)
  {
    hide Pow2;
    assert Fits(Unlimited(root), -1, Want(1, 2, 2, 0), 2);
  }

  /** In a root with one child that ends with the last address, the BUG_ON is reached for a resource below it. */
  method ReachesBug() returns (r: Reply)
    ensures r == Bug
  {
    FullWell();
    hide Pow2, Multiple, WellFormed, Lowest;
    var t := new ResourceTree(0, U64 - 1);
    ghost var at;
    var c;
    c, at := t.Request(Full());
    assert t.root == Res(0, U64 - 1, false, [Full()]);
    ghost var s;
    ghost var root := t.root;
    assert IsPath(root, [0]) && Sub(root, [0]) == Full() && Wraps(root, -1);
    r, s, at := t.ReallocateBelow([0], 0, Want(1, 2, 2, 0));
    FullPlace(root, s);
  }
}
