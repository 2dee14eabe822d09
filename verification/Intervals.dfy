/** Interval subtraction of the availability calculator. Times are integer milliseconds. */
module Intervals {

  datatype Interval = Interval(start: int, end: int)

  /** Some interval of xs contains the whole window [from, until). */
  ghost predicate Fits(xs: seq<Interval>, from: int, until: int) {
    exists i :: 0 <= i < |xs| && xs[i].start <= from && until <= xs[i].end
  }

  /** Instant t lies in the union of the half-open intervals xs. */
  ghost predicate Covers(xs: seq<Interval>, t: int) {
    exists i :: 0 <= i < |xs| && xs[i].start <= t < xs[i].end
  }

  /** The window [from, until) clashes with nothing in occupied. */
  predicate Free(from: int, until: int, occupied: seq<Interval>) {
    forall i :: 0 <= i < |occupied| ==> !(from < occupied[i].end && occupied[i].start < until)
  }

  ghost predicate Proper(xs: seq<Interval>) {
    forall i :: 0 <= i < |xs| ==> xs[i].start < xs[i].end
  }

  /** Sorted, non-empty and pairwise separated: the maximal intervals of their union. */
  ghost predicate Normal(xs: seq<Interval>) {
    && Proper(xs)
    && forall i, j :: 0 <= i < j < |xs| ==> xs[i].end < xs[j].start
  }

  function Cut(r: Interval, sub: Interval): seq<Interval> {
    if sub.end <= r.start || sub.start >= r.end then [r]
    else
      (if sub.start > r.start then [Interval(r.start, sub.start)] else [])
      + (if sub.end < r.end then [Interval(sub.end, r.end)] else [])
  }

  function CutAll(rs: seq<Interval>, sub: Interval): seq<Interval> {
    if rs == [] then [] else CutAll(rs[..|rs| - 1], sub) + Cut(rs[|rs| - 1], sub)
  }

  function Subtract(base: seq<Interval>, subs: seq<Interval>): seq<Interval> {
    if subs == [] then base else CutAll(Subtract(base, subs[..|subs| - 1]), subs[|subs| - 1])
  }

  /** The inner loop: what one subtrahend leaves of the pieces. */
  method SubtractOne(result: seq<Interval>, sub: Interval) returns (next: seq<Interval>)
    ensures next == CutAll(result, sub)
  {
    next := [];
    for m := 0 to |result|
      invariant next == CutAll(result[..m], sub)
    {
      var r := result[m];
      assert result[..m + 1][..m] == result[..m];
      if sub.end <= r.start || sub.start >= r.end {
        next := next + [r];
      } else {
        ghost var before := next;
        if sub.start > r.start { next := next + [Interval(r.start, sub.start)]; }
        if sub.end < r.end { next := next + [Interval(sub.end, r.end)]; }
        assert next == before + Cut(r, sub);
      }
    }
    assert result[..|result|] == result;
  }

  method SubtractIntervals(base: seq<Interval>, toSubtract: seq<Interval>) returns (result: seq<Interval>)
    ensures result == Subtract(base, toSubtract)
  {
    result := base;
    for n := 0 to |toSubtract|
      invariant result == Subtract(base, toSubtract[..n])
    {
      assert toSubtract[..n + 1][..n] == toSubtract[..n];
      result := SubtractOne(result, toSubtract[n]);
    }
    assert toSubtract[..|toSubtract|] == toSubtract;
  }

  method IsSlotFree(slotStart: int, slotEnd: int, occupied: seq<Interval>) returns (free: bool)
    ensures free <==> forall i :: 0 <= i < |occupied| ==> slotEnd <= occupied[i].start || occupied[i].end <= slotStart
  {
    for n := 0 to |occupied|
      invariant forall i :: 0 <= i < n ==> slotEnd <= occupied[i].start || occupied[i].end <= slotStart
    {
      if slotStart < occupied[n].end && occupied[n].start < slotEnd { return false; }
    }
    return true;
  }

  // ---- What the subtraction means ----

  lemma FitsConcat(a: seq<Interval>, b: seq<Interval>, from: int, until: int)
    ensures Fits(a + b, from, until) <==> Fits(a, from, until) || Fits(b, from, until)
  {
    if Fits(a, from, until) {
      var i :| 0 <= i < |a| && a[i].start <= from && until <= a[i].end;
      assert (a + b)[i] == a[i];
    }
    if Fits(b, from, until) {
      var i :| 0 <= i < |b| && b[i].start <= from && until <= b[i].end;
      assert (a + b)[|a| + i] == b[i];
    }
  }

  lemma CutFits(r: Interval, sub: Interval, from: int, until: int)
    requires from < until
    ensures Fits(Cut(r, sub), from, until)
       <==> r.start <= from && until <= r.end && (until <= sub.start || sub.end <= from)
  {
    var left := if sub.start > r.start then [Interval(r.start, sub.start)] else [];
    var right := if sub.end < r.end then [Interval(sub.end, r.end)] else [];
    FitsConcat(left, right, from, until);
    if sub.start > r.start { assert left[0] == Interval(r.start, sub.start); }
    if sub.end < r.end { assert right[0] == Interval(sub.end, r.end); }
    assert [r][0] == r;
  }

  lemma {:induction false} CutAllFits(rs: seq<Interval>, sub: Interval, from: int, until: int)
    requires from < until
    ensures Fits(CutAll(rs, sub), from, until)
       <==> Fits(rs, from, until) && (until <= sub.start || sub.end <= from)
  {
    if rs != [] {
      var init, last := rs[..|rs| - 1], rs[|rs| - 1];
      assert rs == init + [last];
      CutAllFits(init, sub, from, until);
      CutFits(last, sub, from, until);
      FitsConcat(CutAll(init, sub), Cut(last, sub), from, until);
      FitsConcat(init, [last], from, until);
      assert [last][0] == last;
    }
  }

  /** A window fits in what is left exactly when it fits in a base interval and clashes with no subtrahend.
      Nothing is assumed of the intervals: they may be empty, inverted, or overlap. */
  lemma {:induction false} SubtractFits(base: seq<Interval>, subs: seq<Interval>, from: int, until: int)
    requires from < until
    ensures Fits(Subtract(base, subs), from, until) <==> Fits(base, from, until) && Free(from, until, subs)
  {
    if subs != [] {
      var init, last := subs[..|subs| - 1], subs[|subs| - 1];
      SubtractFits(base, init, from, until);
      CutAllFits(Subtract(base, init), last, from, until);
      FreeSnoc(from, until, subs);
    }
  }

  lemma FreeSnoc(from: int, until: int, subs: seq<Interval>)
    requires subs != []
    ensures var last := subs[|subs| - 1];
      Free(from, until, subs) <==>
      Free(from, until, subs[..|subs| - 1]) && (until <= last.start || last.end <= from)
  {
    var init := subs[..|subs| - 1];
    assert forall i :: 0 <= i < |init| ==> init[i] == subs[i];
  }

  /** The union of the result is the union of base minus the union of the subtrahends. */
  lemma SubtractIsDifference(base: seq<Interval>, subs: seq<Interval>, t: int)
    ensures Covers(Subtract(base, subs), t) <==> Covers(base, t) && !Covers(subs, t)
  {
    SubtractFits(base, subs, t, t + 1);
    CoversIsFits(Subtract(base, subs), t);
    CoversIsFits(base, t);
    assert Free(t, t + 1, subs) <==> !Covers(subs, t);
  }

  lemma CoversIsFits(xs: seq<Interval>, t: int)
    ensures Covers(xs, t) <==> Fits(xs, t, t + 1)
  {
    if Fits(xs, t, t + 1) {
      var i :| 0 <= i < |xs| && xs[i].start <= t && t + 1 <= xs[i].end;
      assert xs[i].start <= t < xs[i].end;
    }
  }

  /** A subtrahend that ends before the interval, or starts after it, leaves it whole; otherwise what lies before its
      start and what lies after its end are left. */
  lemma CutEffect(r: Interval, sub: Interval)
    ensures sub.end <= r.start || r.end <= sub.start ==> Cut(r, sub) == [r]
    ensures r.start < sub.end && sub.start < r.end ==>
      var before, after := Interval(r.start, sub.start), Interval(sub.end, r.end);
      && (r.start < sub.start && sub.end < r.end ==> Cut(r, sub) == [before, after])
      && (r.start < sub.start && r.end <= sub.end ==> Cut(r, sub) == [before])
      && (sub.start <= r.start && sub.end < r.end ==> Cut(r, sub) == [after])
      && (sub.start <= r.start && r.end <= sub.end ==> Cut(r, sub) == [])
  {
  }

  // ---- Canonical form ----

  lemma CutAllSnoc(rs: seq<Interval>, r: Interval, sub: Interval)
    ensures CutAll(rs + [r], sub) == CutAll(rs, sub) + Cut(r, sub)
  {
    var all := rs + [r];
    assert all[..|all| - 1] == rs;
  }

  lemma {:induction false} CutAllDistributes(a: seq<Interval>, b: seq<Interval>, sub: Interval)
    ensures CutAll(a + b, sub) == CutAll(a, sub) + CutAll(b, sub)
  {
    if b == [] {
      assert a + b == a;
    } else {
      var init, last := b[..|b| - 1], b[|b| - 1];
      CutAllDistributes(a, init, sub);
      CutAllSnoc(a + init, last, sub);
      CutAllSnoc(init, last, sub);
      SnocConcat(a, b);
      Associative(CutAll(a, sub), CutAll(init, sub), Cut(last, sub));
    }
  }

  lemma SnocConcat(a: seq<Interval>, b: seq<Interval>)
    requires b != []
    ensures b[..|b| - 1] + [b[|b| - 1]] == b && (a + b[..|b| - 1]) + [b[|b| - 1]] == a + b
  {
  }

  lemma Associative(a: seq<Interval>, b: seq<Interval>, c: seq<Interval>)
    ensures (a + b) + c == a + (b + c)
  {
  }

  lemma {:induction false} SubtractDistributes(a: seq<Interval>, b: seq<Interval>, subs: seq<Interval>)
    ensures Subtract(a + b, subs) == Subtract(a, subs) + Subtract(b, subs)
  {
    if subs != [] {
      var init := subs[..|subs| - 1];
      SubtractDistributes(a, b, init);
      CutAllDistributes(Subtract(a, init), Subtract(b, init), subs[|subs| - 1]);
    }
  }

  predicate Within(p: Interval, r: Interval) { r.start <= p.start && p.end <= r.end }

  lemma {:induction false} CutAllWithin(rs: seq<Interval>, sub: Interval)
    requires Proper(rs)
    ensures Proper(CutAll(rs, sub))
    ensures forall p :: p in CutAll(rs, sub) ==> exists k :: 0 <= k < |rs| && Within(p, rs[k])
  {
    if rs != [] {
      var init, last := rs[..|rs| - 1], rs[|rs| - 1];
      CutAllWithin(init, sub);
      forall p | p in CutAll(rs, sub) ensures exists k :: 0 <= k < |rs| && Within(p, rs[k]) {
        if p in CutAll(init, sub) {
          var k :| 0 <= k < |init| && Within(p, init[k]);
          assert Within(p, rs[k]);
        } else {
          assert Within(p, rs[|rs| - 1]);
        }
      }
    }
  }

  lemma ConcatNormal(a: seq<Interval>, b: seq<Interval>)
    requires Normal(a) && Normal(b)
    requires forall p, q :: p in a && q in b ==> p.end < q.start
    ensures Normal(a + b)
  {
    forall i, j | 0 <= i < |a| && 0 <= j < |b| ensures a[i].end < b[j].start {
      assert a[i] in a && b[j] in b;
    }
  }

  lemma {:induction false} CutAllNormal(rs: seq<Interval>, sub: Interval)
    requires Normal(rs) && sub.start < sub.end
    ensures Normal(CutAll(rs, sub))
  {
    if rs != [] {
      var init, last := rs[..|rs| - 1], rs[|rs| - 1];
      CutAllNormal(init, sub);
      CutAllWithin(init, sub);
      assert Normal(Cut(last, sub)) && forall q :: q in Cut(last, sub) ==> Within(q, last);
      forall p, q | p in CutAll(init, sub) && q in Cut(last, sub) ensures p.end < q.start {
        var k :| 0 <= k < |init| && Within(p, init[k]);
        assert rs[k] == init[k];
      }
      ConcatNormal(CutAll(init, sub), Cut(last, sub));
    }
  }

  lemma {:induction false} SubtractNormal(base: seq<Interval>, subs: seq<Interval>)
    requires Normal(base) && Proper(subs)
    ensures Normal(Subtract(base, subs))
  {
    if subs != [] {
      var init := subs[..|subs| - 1];
      SubtractNormal(base, init);
      CutAllNormal(Subtract(base, init), subs[|subs| - 1]);
    }
  }

  lemma NormalHead(a: seq<Interval>, b: seq<Interval>)
    requires Normal(a) && Normal(b) && a != [] && b != []
    requires forall t :: Covers(a, t) <==> Covers(b, t)
    ensures b[0].start <= a[0].start && b[0].end <= a[0].end
  {
    var s := a[0].start;
    assert Covers(a, s);
    assert Covers(b, s);
    assert b[0].start <= s;
    var e := a[0].end;
    assert !Covers(a, e);
    assert !Covers(b, e);
    assert b[0].start < e;
  }

  lemma NormalTail(a: seq<Interval>, t: int)
    requires Normal(a) && a != []
    ensures Covers(a[1..], t) <==> Covers(a, t) && !(a[0].start <= t < a[0].end)
  {
    if Covers(a[1..], t) {
      var i :| 0 <= i < |a[1..]| && a[1..][i].start <= t < a[1..][i].end;
      assert a[i + 1] == a[1..][i];
    }
    if Covers(a, t) && !(a[0].start <= t < a[0].end) {
      var i :| 0 <= i < |a| && a[i].start <= t < a[i].end;
      assert a[1..][i - 1] == a[i];
    }
  }

  /** A set of instants has only one normal form. */
  lemma {:induction false} NormalUnique(a: seq<Interval>, b: seq<Interval>)
    requires Normal(a) && Normal(b)
    requires forall t :: Covers(a, t) <==> Covers(b, t)
    ensures a == b
  {
    if a == [] && b == [] {
    } else if a == [] {
      assert Covers(b, b[0].start);
      assert false;
    } else if b == [] {
      assert Covers(a, a[0].start);
      assert false;
    } else {
      NormalHead(a, b);
      NormalHead(b, a);
      forall t ensures Covers(a[1..], t) <==> Covers(b[1..], t) {
        NormalTail(a, t);
        NormalTail(b, t);
      }
      NormalUnique(a[1..], b[1..]);
    }
  }

  /** With proper intervals the result, as a list, depends only on the set of instants subtracted: neither the
      order of the subtrahends nor how they split that set matters. */
  lemma {:induction false} SubtractCanonical(base: seq<Interval>, subs: seq<Interval>, subs': seq<Interval>)
    requires Proper(base) && Proper(subs) && Proper(subs')
    requires forall t :: Covers(subs, t) <==> Covers(subs', t)
    ensures Subtract(base, subs) == Subtract(base, subs')
  {
    if base == [] {
      SubtractNormal([], subs);
      SubtractNormal([], subs');
      SubtractFromNothing(subs);
      SubtractFromNothing(subs');
    } else {
      var init, last := base[..|base| - 1], base[|base| - 1];
      assert base == init + [last];
      SubtractDistributes(init, [last], subs);
      SubtractDistributes(init, [last], subs');
      SubtractCanonical(init, subs, subs');
      SubtractNormal([last], subs);
      SubtractNormal([last], subs');
      forall t ensures Covers(Subtract([last], subs), t) <==> Covers(Subtract([last], subs'), t) {
        SubtractIsDifference([last], subs, t);
        SubtractIsDifference([last], subs', t);
      }
      NormalUnique(Subtract([last], subs), Subtract([last], subs'));
    }
  }

  lemma {:induction false} SubtractFromNothing(subs: seq<Interval>)
    ensures Subtract([], subs) == []
  {
    if subs != [] { SubtractFromNothing(subs[..|subs| - 1]); }
  }

  /** Instant p lies strictly inside one of the intervals. */
  ghost predicate Inside(xs: seq<Interval>, p: int) {
    exists i :: 0 <= i < |xs| && xs[i].start < p < xs[i].end
  }

  lemma InsideSnoc(xs: seq<Interval>, x: Interval, p: int)
    ensures Inside(xs + [x], p) <==> Inside(xs, p) || x.start < p < x.end
  {
    var all := xs + [x];
    assert all[|xs|] == x && forall i :: 0 <= i < |xs| ==> all[i] == xs[i];
  }

  lemma CutEmpty(r: Interval, p: int)
    ensures if r.start < p < r.end then |Cut(r, Interval(p, p))| == 2 else Cut(r, Interval(p, p)) == [r]
  {
  }

  /** An empty subtrahend splits exactly the intervals it falls inside of. */
  lemma {:induction false} CutAllEmpty(rs: seq<Interval>, p: int)
    ensures if Inside(rs, p) then |CutAll(rs, Interval(p, p))| > |rs| else CutAll(rs, Interval(p, p)) == rs
  {
    if rs != [] {
      var init, last := rs[..|rs| - 1], rs[|rs| - 1];
      assert rs == init + [last];
      CutAllEmpty(init, p);
      CutEmpty(last, p);
      InsideSnoc(init, last, p);
    }
  }

  /** An empty subtrahend removes no instant, and it changes the list if and only if it falls inside a piece. */
  lemma EmptySubtrahendSplits(base: seq<Interval>, subs: seq<Interval>, p: int)
    ensures var pieces := Subtract(base, subs);
      var after := Subtract(base, subs + [Interval(p, p)]);
      && (forall t :: Covers(after, t) <==> Covers(pieces, t))
      && (after == pieces <==> forall i :: 0 <= i < |pieces| ==> !(pieces[i].start < p < pieces[i].end))
  {
    var more := subs + [Interval(p, p)];
    assert more[..|more| - 1] == subs;
    CutAllEmpty(Subtract(base, subs), p);
    forall t ensures Covers(Subtract(base, more), t) <==> Covers(Subtract(base, subs), t) {
      SubtractIsDifference(base, more, t);
      SubtractIsDifference(base, subs, t);
      CoversSnoc(subs, Interval(p, p), t);
    }
  }

  lemma CoversSnoc(xs: seq<Interval>, x: Interval, t: int)
    ensures Covers(xs + [x], t) <==> Covers(xs, t) || x.start <= t < x.end
  {
    var all := xs + [x];
    assert all[|xs|] == x && forall i :: 0 <= i < |xs| ==> all[i] == xs[i];
  }

  // ---- Intervals that stay apart ----

  ghost predicate Forward(xs: seq<Interval>) {
    forall i :: 0 <= i < |xs| ==> xs[i].start <= xs[i].end
  }

  /** No two of the intervals share an instant, in whatever order they come. */
  ghost predicate Apart(xs: seq<Interval>) {
    && Proper(xs)
    && forall i, j :: 0 <= i < j < |xs| ==> xs[i].end <= xs[j].start || xs[j].end <= xs[i].start
  }

  /** Each interval ends before the next one starts, or where it starts. */
  ghost predicate Ordered(xs: seq<Interval>) {
    && Proper(xs)
    && forall i, j :: 0 <= i < j < |xs| ==> xs[i].end <= xs[j].start
  }

  lemma ConcatApart(a: seq<Interval>, b: seq<Interval>)
    requires Apart(a) && Apart(b)
    requires forall p, q :: p in a && q in b ==> p.end <= q.start || q.end <= p.start
    ensures Apart(a + b)
  {
    forall i, j | 0 <= i < |a| && 0 <= j < |b| ensures a[i].end <= b[j].start || b[j].end <= a[i].start {
      assert a[i] in a && b[j] in b;
    }
  }

  lemma ConcatOrdered(a: seq<Interval>, b: seq<Interval>)
    requires Ordered(a) && Ordered(b)
    requires forall p, q :: p in a && q in b ==> p.end <= q.start
    ensures Ordered(a + b)
  {
    forall i, j | 0 <= i < |a| && 0 <= j < |b| ensures a[i].end <= b[j].start {
      assert a[i] in a && b[j] in b;
    }
  }

  lemma CutWithin(r: Interval, sub: Interval)
    requires r.start < r.end && sub.start <= sub.end
    ensures Ordered(Cut(r, sub)) && Apart(Cut(r, sub))
    ensures forall p :: p in Cut(r, sub) ==> Within(p, r)
  {
  }

  lemma {:induction false} CutAllApart(rs: seq<Interval>, sub: Interval)
    requires sub.start <= sub.end && Apart(rs)
    ensures Apart(CutAll(rs, sub))
  {
    if rs != [] {
      var init, last := rs[..|rs| - 1], rs[|rs| - 1];
      CutAllApart(init, sub);
      CutAllWithin(init, sub);
      CutWithin(last, sub);
      forall p, q | p in CutAll(init, sub) && q in Cut(last, sub) ensures p.end <= q.start || q.end <= p.start {
        var k :| 0 <= k < |init| && Within(p, init[k]);
        assert rs[k] == init[k];
      }
      ConcatApart(CutAll(init, sub), Cut(last, sub));
    }
  }

  lemma {:induction false} CutAllOrdered(rs: seq<Interval>, sub: Interval)
    requires sub.start <= sub.end && Ordered(rs)
    ensures Ordered(CutAll(rs, sub))
  {
    if rs != [] {
      var init, last := rs[..|rs| - 1], rs[|rs| - 1];
      CutAllOrdered(init, sub);
      CutAllWithin(init, sub);
      CutWithin(last, sub);
      forall p, q | p in CutAll(init, sub) && q in Cut(last, sub) ensures p.end <= q.start {
        var k :| 0 <= k < |init| && Within(p, init[k]);
        assert rs[k] == init[k];
      }
      ConcatOrdered(CutAll(init, sub), Cut(last, sub));
    }
  }

  lemma {:induction false} SubtractApart(base: seq<Interval>, subs: seq<Interval>)
    requires Forward(subs)
    ensures Apart(base) ==> Apart(Subtract(base, subs))
    ensures Ordered(base) ==> Ordered(Subtract(base, subs))
  {
    if subs != [] {
      SubtractApart(base, subs[..|subs| - 1]);
      var before := Subtract(base, subs[..|subs| - 1]);
      if Apart(base) { CutAllApart(before, subs[|subs| - 1]); }
      if Ordered(base) { CutAllOrdered(before, subs[|subs| - 1]); }
    }
  }

  ghost predicate StartsAt(xs: seq<Interval>, t: int) {
    exists i :: 0 <= i < |xs| && xs[i].start == t
  }

  ghost predicate EndsAt(xs: seq<Interval>, t: int) {
    exists i :: 0 <= i < |xs| && xs[i].end == t
  }

  lemma {:induction false} CutAllStarts(rs: seq<Interval>, sub: Interval, t: int)
    requires StartsAt(CutAll(rs, sub), t)
    ensures t == sub.end || StartsAt(rs, t)
  {
    if rs != [] {
      var init, last := rs[..|rs| - 1], rs[|rs| - 1];
      var a, b := CutAll(init, sub), Cut(last, sub);
      var all := a + b;
      var i :| 0 <= i < |all| && all[i].start == t;
      if i < |a| {
        assert a[i].start == t;
        CutAllStarts(init, sub, t);
        if StartsAt(init, t) {
          var j :| 0 <= j < |init| && init[j].start == t;
          assert rs[j].start == t;
        }
      } else {
        assert b[i - |a|].start == t;
      }
    }
  }

  /** Every piece left over starts where a base interval starts or where a subtrahend ends. */
  lemma {:induction false} SubtractStarts(base: seq<Interval>, subs: seq<Interval>, t: int)
    requires StartsAt(Subtract(base, subs), t)
    ensures StartsAt(base, t) || EndsAt(subs, t)
  {
    if subs != [] {
      var init, last := subs[..|subs| - 1], subs[|subs| - 1];
      CutAllStarts(Subtract(base, init), last, t);
      if t == last.end {
        assert subs[|subs| - 1].end == t;
      } else {
        SubtractStarts(base, init, t);
        if !StartsAt(base, t) {
          var j :| 0 <= j < |init| && init[j].end == t;
          assert subs[j].end == t;
        }
      }
    }
  }
}
