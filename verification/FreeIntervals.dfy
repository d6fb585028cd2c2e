/** The reassembler's set of free intervals: which indices it leaves out, and how claiming a
    range of indices carves it. */
module FreeIntervals {
  import opened Bytes

  /** The indices first, ..., second - 1. */
  datatype Interval = Interval(first: nat, second: nat) {
    predicate Has(i: nat) { first <= i < second }

    /** The order of the ordered set. */
    predicate Below(other: Interval) {
      first < other.first || (first == other.first && second < other.second)
    }

    /** Shares an index with [l, r), or contains the point l == r strictly inside. */
    predicate Meets(l: nat, r: nat) { !(l >= second || r <= first) }
  }

  /** The upper end of the initial interval: the largest 64-bit number. */
  const SIZE_MAX: nat := TWO_64 - 1

  ghost predicate Disjoint(free: set<Interval>) {
    && (forall p :: p in free ==> p.first < p.second)
    && (forall p, q :: p in free && q in free && p != q ==> p.second <= q.first || q.second <= p.first)
  }

  /** The free intervals are disjoint and cover exactly the indices that are not accepted. */
  ghost predicate Complements(free: set<Interval>, accepted: set<nat>) {
    && Disjoint(free)
    && (forall p: Interval, i: nat :: p in free && p.Has(i) ==> i !in accepted && i < SIZE_MAX)
    && (forall i: nat :: i < SIZE_MAX && i !in accepted ==> exists p :: p in free && p.Has(i))
  }

  /** What is left of the free intervals once [l, r) is claimed. */
  function Carve(free: set<Interval>, l: nat, r: nat): set<Interval> {
    (set p | p in free && !p.Meets(l, r))
    + (set p | p in free && p.Meets(l, r) && p.first < l :: Interval(p.first, l))
    + (set p | p in free && p.Meets(l, r) && r < p.second :: Interval(r, p.second))
  }

  /** q is what claiming [l, r) leaves of p: all of it, or what lies before or behind. */
  predicate Part(q: Interval, p: Interval, l: nat, r: nat) {
    || (q == p && !p.Meets(l, r))
    || (q == Interval(p.first, l) && p.Meets(l, r) && p.first < l)
    || (q == Interval(r, p.second) && p.Meets(l, r) && r < p.second)
  }

  lemma CarvePart(free: set<Interval>, l: nat, r: nat, q: Interval) returns (p: Interval)
    requires q in Carve(free, l, r)
    ensures p in free && Part(q, p, l, r)
  {
    if q in free && !q.Meets(l, r) {
      p := q;
    } else if q in (set p | p in free && p.Meets(l, r) && p.first < l :: Interval(p.first, l)) {
      p :| p in free && p.Meets(l, r) && p.first < l && q == Interval(p.first, l);
    } else {
      p :| p in free && p.Meets(l, r) && r < p.second && q == Interval(r, p.second);
    }
  }

  lemma CarveDisjoint(free: set<Interval>, l: nat, r: nat)
    requires Disjoint(free) && l <= r
    ensures Disjoint(Carve(free, l, r))
  {
    hide Carve;
    forall q | q in Carve(free, l, r)
      ensures q.first < q.second
    {
      var p := CarvePart(free, l, r, q);
    }
    forall q, q' | q in Carve(free, l, r) && q' in Carve(free, l, r) && q != q'
      ensures q.second <= q'.first || q'.second <= q.first
    {
      var p := CarvePart(free, l, r, q);
      var p' := CarvePart(free, l, r, q');
      assert p == p' || p.second <= p'.first || p'.second <= p.first;
    }
  }

  /** Claiming a range turns the complement of a set into the complement of its union with it. */
  lemma CarveComplements(free: set<Interval>, accepted: set<nat>, l: nat, r: nat)
    requires Complements(free, accepted) && l <= r <= SIZE_MAX
    ensures Complements(Carve(free, l, r), accepted + Range(l, r))
  {
    var free' := Carve(free, l, r);
    CarveDisjoint(free, l, r);
    forall q: Interval, i: nat | q in free' && q.Has(i)
      ensures i !in accepted + Range(l, r) && i < SIZE_MAX
    {
      var p := CarvePart(free, l, r, q);
      assert p.Has(i);
    }
    forall i: nat | i < SIZE_MAX && i !in accepted + Range(l, r)
      ensures exists q :: q in free' && q.Has(i)
    {
      var p :| p in free && p.Has(i);
      var q := if !p.Meets(l, r) then p else if i < l then Interval(p.first, l) else Interval(r, p.second);
      assert q in free' && q.Has(i);
    }
  }

  // ---- The ordered set ----------------------------------------------------------

  /** The least interval of a set, if any. */
  method First(s: set<Interval>) returns (it: Option<Interval>)
    ensures IsFirst(s, it)
  {
    it := None;
    var rest := s;
    while rest != {}
      invariant rest <= s
      invariant it.None? ==> rest == s
      invariant it.Some? ==> it.value in s && forall p :: p in s && p !in rest ==> p == it.value || it.value.Below(p)
      decreases rest
    {
      var p :| p in rest;
      rest := rest - {p};
      if it.None? || p.Below(it.value) {
        it := Some(p);
      }
    }
  }

  /** The greatest interval of a set, if any. */
  method Last(s: set<Interval>) returns (it: Option<Interval>)
    ensures IsLast(s, it)
  {
    it := None;
    var rest := s;
    while rest != {}
      invariant rest <= s
      invariant it.None? ==> rest == s
      invariant it.Some? ==> it.value in s && forall p :: p in s && p !in rest ==> p == it.value || p.Below(it.value)
      decreases rest
    {
      var p :| p in rest;
      rest := rest - {p};
      if it.None? || it.value.Below(p) {
        it := Some(p);
      }
    }
  }

  // ---- Walking over the intervals that a range meets ------------------------------

  /** The intervals before the iterator; all of them when it is past the end. */
  function Before(free: set<Interval>, it: Option<Interval>): set<Interval> {
    set p | p in free && (it.None? || p.Below(it.value))
  }

  function After(free: set<Interval>, it: Interval): set<Interval> {
    set p | p in free && it.Below(p)
  }

  /** The pieces that [l, r) leaves of the intervals met so far. */
  function Pieces(done: set<Interval>, l: nat, r: nat): set<Interval> {
    (set p | p in done && p.Meets(l, r) && p.first < l :: Interval(p.first, l))
    + (set p | p in done && p.Meets(l, r) && r < p.second :: Interval(r, p.second))
  }

  /** The free indices of [l, r) in the intervals met so far. */
  function Taken(done: set<Interval>, l: nat, r: nat): set<nat> {
    set i | i in Range(l, r) && exists p :: p in done && p.Has(i)
  }

  /** The state of the walk when the intervals in done have been dealt with. */
  ghost predicate Walked(done: set<Interval>, l: nat, r: nat, erase: seq<Interval>, insert: seq<Interval>) {
    && (forall p :: p in erase <==> p in done && p.Meets(l, r))
    && (forall q :: q in insert <==> q in Pieces(done, l, r))
  }

  function LeftPiece(p: Interval, l: nat): seq<Interval> {
    if p.first < l then [Interval(p.first, l)] else []
  }

  function RightPiece(p: Interval, r: nat): seq<Interval> {
    if r < p.second then [Interval(r, p.second)] else []
  }

  lemma WalkNone(l: nat, r: nat)
    ensures Walked({}, l, r, [], []) && Taken({}, l, r) == {}
  {
  }

  lemma WalkOne(done: set<Interval>, p: Interval, l: nat, r: nat, erase: seq<Interval>, insert: seq<Interval>)
    requires Walked(done, l, r, erase, insert)
    ensures p.Meets(l, r) ==> Walked(done + {p}, l, r, erase + [p], insert + LeftPiece(p, l) + RightPiece(p, r))
    ensures !p.Meets(l, r) ==> Walked(done + {p}, l, r, erase, insert)
  {
    var old' := Pieces(done, l, r);
    if p.Meets(l, r) {
      assert Pieces(done + {p}, l, r) == old' + (set q | q in LeftPiece(p, l)) + (set q | q in RightPiece(p, r));
    } else {
      assert Pieces(done + {p}, l, r) == old';
    }
  }

  lemma TakeOne(done: set<Interval>, p: Interval, l: nat, r: nat)
    requires Disjoint(done + {p}) && p !in done && l <= r
    ensures p.Meets(l, r) ==>
              |Taken(done + {p}, l, r)| == |Taken(done, l, r)| + |Range(Max(l, p.first), Min(r, p.second))|
    ensures !p.Meets(l, r) ==> Taken(done + {p}, l, r) == Taken(done, l, r)
  {
    var mine := if p.Meets(l, r) then Range(Max(l, p.first), Min(r, p.second)) else {};
    forall i: nat
      ensures i in Taken(done + {p}, l, r) <==> i in Taken(done, l, r) || i in mine
    {
      if i in mine {
        assert p in done + {p} && p.Has(i);
      }
    }
    assert Taken(done + {p}, l, r) == Taken(done, l, r) + mine;
    assert Taken(done, l, r) !! mine;
  }

  /** Once every interval that the range meets is dealt with, the walk has carved it out. */
  lemma WalkDone(free: set<Interval>, done: set<Interval>, accepted: set<nat>, l: nat, r: nat,
                 erase: seq<Interval>, insert: seq<Interval>)
    requires Complements(free, accepted) && l <= r <= SIZE_MAX && done <= free
    requires forall p :: p in free && p.Meets(l, r) ==> p in done
    requires Walked(done, l, r, erase, insert)
    ensures free - (set p | p in erase) + (set q | q in insert) == Carve(free, l, r)
    ensures |accepted + Range(l, r)| == |accepted| + |Taken(done, l, r)|
  {
    assert Pieces(done, l, r) == Pieces(free, l, r);
    assert free - (set p | p in erase) == (set p | p in free && !p.Meets(l, r));
    forall i: nat | i in Range(l, r)
      ensures i in Taken(done, l, r) <==> i !in accepted
    {
      if i !in accepted {
        var p :| p in free && p.Has(i);
        assert p.Meets(l, r);
      }
    }
    assert accepted + Range(l, r) == accepted + Taken(done, l, r);
    assert accepted !! Taken(done, l, r);
  }

  /** it is the least interval of s, or the end of an empty s. */
  ghost predicate IsFirst(s: set<Interval>, it: Option<Interval>) {
    && (it.None? <==> s == {})
    && (it.Some? ==> it.value in s && forall p :: p in s ==> p == it.value || it.value.Below(p))
  }

  ghost predicate IsLast(s: set<Interval>, it: Option<Interval>) {
    && (it.None? <==> s == {})
    && (it.Some? ==> it.value in s && forall p :: p in s ==> p == it.value || p.Below(it.value))
  }

  /** The intervals not below the empty interval at a position: where lower_bound looks. */
  function NotBelow(free: set<Interval>, at: nat): set<Interval> {
    set p | p in free && !p.Below(Interval(at, at))
  }

  /** No interval before the one in front of the lower bound meets the range. */
  lemma NothingSkipped(free: set<Interval>, lb: Option<Interval>, back: Option<Interval>, l: nat, r: nat)
    requires Disjoint(free) && IsFirst(NotBelow(free, l), lb) && IsLast(Before(free, lb), back)
    ensures forall p :: p in Before(free, if back.Some? then back else lb) ==> !p.Meets(l, r)
  {
    if back.Some? {
      assert back.value in free && back.value !in NotBelow(free, l);
      assert back.value.first < l;
    }
  }

  /** No interval behind the lower bound of the end of the range meets it. */
  lemma NothingBeyond(free: set<Interval>, end: Option<Interval>, l: nat, r: nat, p: Interval)
    requires Disjoint(free) && IsFirst(NotBelow(free, r), end) && end.Some?
    requires p in free && !p.Below(end.value)
    ensures !p.Meets(l, r)
  {
  }

  /** Moving on to the next interval adds exactly the current one to those behind. */
  lemma BeforeNext(free: set<Interval>, it: Interval, next: Option<Interval>)
    requires it in free && IsFirst(After(free, it), next)
    ensures Before(free, next) == Before(free, Some(it)) + {it}
  {
    forall p | p in free
      ensures p in Before(free, next) <==> p.Below(it) || p == it
    {
      if it.Below(p) {
        assert p in After(free, it);
      }
    }
  }

  lemma DisjointPart(free: set<Interval>, done: set<Interval>)
    requires Disjoint(free) && done <= free
    ensures Disjoint(done)
  {
  }

  /** Where the walk starts and where it may stop: the interval in front of the lower bound of l,
      and the lower bound of r. */
  method Bounds(free: set<Interval>, l: nat, r: nat) returns (from: Option<Interval>, to: Option<Interval>)
    requires Disjoint(free)
    ensures from.Some? ==> from.value in free
    ensures forall p :: p in Before(free, from) ==> !p.Meets(l, r)
    ensures to.Some? ==> forall p :: p in free && !p.Below(to.value) ==> !p.Meets(l, r)
  {
    from := First(NotBelow(free, l));
    to := First(NotBelow(free, r));
    var back := Last(Before(free, from));
    NothingSkipped(free, from, back, l, r);
    if back.Some? {
      from := back;
    }
    if to.Some? {
      forall p | p in free && !p.Below(to.value)
        ensures !p.Meets(l, r)
      {
        NothingBeyond(free, to, l, r, p);
      }
    }
  }
}
