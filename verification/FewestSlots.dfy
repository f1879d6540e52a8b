/** First fit over spans in order: what it is, and why no safe sharing uses fewer slots. */
module FewestSlots {
  import opened Amir
  import opened TempSlots

  predicate Before(i: Interval, j: Interval) {
    i.block < j.block || (i.block == j.block && (i.start < j.start || (i.start == j.start && i.temp <= j.temp)))
  }

  ghost predicate Ordered(s: seq<Interval>) {
    forall j, k :: 0 <= j < k < |s| ==> Before(s[j], s[k])
  }

  /** Home p is taken where span k starts: an earlier span there, of the same block, has not ended yet. */
  ghost predicate Busy(intervals: seq<Interval>, home: seq<nat>, p: nat, k: nat)
    requires k < |home| <= |intervals|
  {
    exists i :: 0 <= i < k && home[i] == p && intervals[i].block == intervals[k].block
                && intervals[k].start <= intervals[i].end
  }

  ghost predicate SameType(f: Func, i: Interval, j: Interval) {
    i.temp < |f.types| && j.temp < |f.types| && f.types[i.temp] == f.types[j.temp]
  }

  /** Every home of a span's type that comes before its own is taken where it starts; a home is taken up
      only after the one before it, by the first span in it. */
  ghost predicate FirstFit(f: Func, intervals: seq<Interval>, home: seq<nat>) {
    && |home| <= |intervals|
    && (forall j, k :: 0 <= j < |home| && 0 <= k < |home| ==>
          home[j] < home[k] && SameType(f, intervals[j], intervals[k]) ==> Busy(intervals, home, home[j], k))
    && forall k :: 0 <= k < |home| && home[k] > 0 ==> exists j :: 0 <= j < k && home[j] == home[k] - 1
  }

  /** Spans share a slot exactly when they have the same home, and the slot is that of the first span there. */
  ghost predicate InHomes(intervals: seq<Interval>, slots: Slots, home: seq<nat>) {
    && |home| <= |intervals| && (forall k :: 0 <= k < |home| ==> intervals[k].temp < |slots|)
    && forall j, k :: 0 <= j <= k < |home| ==>
         && (home[j] == home[k] <==> slots[intervals[j].temp] == slots[intervals[k].temp])
         && (home[j] == home[k] && (forall i :: 0 <= i < j ==> home[i] != home[j]) ==>
               slots[intervals[k].temp] == intervals[j].temp)
  }

  // ---- no sharing uses fewer slots ----

  ghost predicate Forward(intervals: seq<Interval>) {
    forall k :: 0 <= k < |intervals| ==> intervals[k].start <= intervals[k].end
  }

  /** The slots of the spans of one type. */
  ghost function SlotsOf(f: Func, intervals: seq<Interval>, slots: Slots, ty: nat): set<nat>
    requires |slots| == |f.types| && forall k :: 0 <= k < |intervals| ==> intervals[k].temp < |slots|
  {
    set k | 0 <= k < |intervals| && f.types[intervals[k].temp] == ty :: slots[intervals[k].temp]
  }

  /** Span i holds its value where span k starts. */
  ghost predicate Holding(intervals: seq<Interval>, i: nat, k: nat)
    requires i < |intervals| && k < |intervals|
  {
    intervals[i].block == intervals[k].block && intervals[i].start <= intervals[k].start <= intervals[i].end
  }

  lemma {:induction false} LastHome(f: Func, intervals: seq<Interval>, home: seq<nat>, ty: nat, n: nat) returns (k: nat)
    requires |home| == |intervals| && n <= |intervals|
    requires forall j :: 0 <= j < |intervals| ==> intervals[j].temp < |f.types|
    requires exists j :: 0 <= j < n && f.types[intervals[j].temp] == ty
    ensures k < n && f.types[intervals[k].temp] == ty
    ensures forall j :: 0 <= j < n && f.types[intervals[j].temp] == ty ==> home[j] <= home[k]
  {
    var j :| 0 <= j < n && f.types[intervals[j].temp] == ty;
    if i :| 0 <= i < n - 1 && f.types[intervals[i].temp] == ty {
      k := LastHome(f, intervals, home, ty, n - 1);
      if f.types[intervals[n - 1].temp] == ty && home[n - 1] > home[k] { k := n - 1; }
    } else {
      k := j;
    }
  }

  /** Each slot of the type holds a value where the span in the last of them starts. */
  lemma SomeHolding(f: Func, intervals: seq<Interval>, slots: Slots, home: seq<nat>, ty: nat, k: nat, r: nat)
    returns (i: nat)
    requires |home| == |intervals| && Ordered(intervals) && Forward(intervals) && Safe(f, intervals, slots)
    requires FirstFit(f, intervals, home) && InHomes(intervals, slots, home)
    requires k < |intervals| && f.types[intervals[k].temp] == ty && r in SlotsOf(f, intervals, slots, ty)
    requires forall j :: 0 <= j < |intervals| && f.types[intervals[j].temp] == ty ==> home[j] <= home[k]
    ensures i < |intervals| && slots[intervals[i].temp] == r && f.types[intervals[i].temp] == ty
    ensures Holding(intervals, i, k)
  {
    hide Disjoint, Listed;
    var j :| 0 <= j < |intervals| && f.types[intervals[j].temp] == ty && slots[intervals[j].temp] == r;
    if home[j] == home[k] {
      i := k;
    } else {
      assert Busy(intervals, home, home[j], k);
      i :| 0 <= i < k && home[i] == home[j] && intervals[i].block == intervals[k].block
           && intervals[k].start <= intervals[i].end;
      assert Before(intervals[i], intervals[k]);
    }
  }

  lemma {:induction false} InjectedSize(s: set<nat>, t: set<nat>, m: map<nat, nat>)
    requires m.Keys == s && (forall x :: x in s ==> m[x] in t)
    requires forall x, y :: x in s && y in s && x != y ==> m[x] != m[y]
    ensures |s| <= |t|
  {
    if s != {} {
      var x :| x in s;
      var rest := map y | y in s && y != x :: m[y];
      assert rest.Keys == s - {x};
      InjectedSize(s - {x}, t - {m[x]}, rest);
    }
  }

  ghost predicate HoldsFor(f: Func, intervals: seq<Interval>, slots: Slots, ty: nat, k: nat, r: nat, i: nat)
    requires |slots| == |f.types| && k < |intervals|
  {
    && i < |intervals| && intervals[i].temp < |slots| && slots[intervals[i].temp] == r
    && f.types[intervals[i].temp] == ty && Holding(intervals, i, k)
  }

  ghost function HolderOf(f: Func, intervals: seq<Interval>, slots: Slots, ty: nat, k: nat, r: nat): (i: nat)
    requires |slots| == |f.types| && k < |intervals|
    requires exists i :: HoldsFor(f, intervals, slots, ty, k, r, i)
    ensures HoldsFor(f, intervals, slots, ty, k, r, i)
  {
    var i :| HoldsFor(f, intervals, slots, ty, k, r, i); i
  }

  /** Spans that hold their values at one place cannot share. */
  lemma HoldersApart(f: Func, intervals: seq<Interval>, other: Slots, i: nat, j: nat, k: nat)
    requires Safe(f, intervals, other) && Forward(intervals) && i < |intervals| && j < |intervals| && k < |intervals|
    requires i != j && Holding(intervals, i, k) && Holding(intervals, j, k)
    ensures other[intervals[i].temp] != other[intervals[j].temp]
  {
    hide Listed;
    assert !Disjoint(intervals[i], intervals[j]);
  }

  lemma SafeFits(f: Func, intervals: seq<Interval>, slots: Slots)
    requires Safe(f, intervals, slots)
    ensures |slots| == |f.types| && forall k :: 0 <= k < |intervals| ==> intervals[k].temp < |slots|
  {
  }

  lemma SlotIn(f: Func, intervals: seq<Interval>, slots: Slots, ty: nat, i: nat)
    requires |slots| == |f.types| && forall k :: 0 <= k < |intervals| ==> intervals[k].temp < |slots|
    requires i < |intervals| && f.types[intervals[i].temp] == ty
    ensures slots[intervals[i].temp] in SlotsOf(f, intervals, slots, ty)
  {
  }

  lemma NoSlots(f: Func, intervals: seq<Interval>, slots: Slots, ty: nat)
    requires |slots| == |f.types| && forall k :: 0 <= k < |intervals| ==> intervals[k].temp < |slots|
    requires SlotsOf(f, intervals, slots, ty) != {}
    ensures exists j :: 0 <= j < |intervals| && f.types[intervals[j].temp] == ty
  {
    var r :| r in SlotsOf(f, intervals, slots, ty);
  }

  /** First fit uses as few slots of each type as any safe sharing of the same spans. */
  lemma Fewest(f: Func, intervals: seq<Interval>, slots: Slots, home: seq<nat>, other: Slots, ty: nat)
    requires |home| == |intervals| && Ordered(intervals) && Forward(intervals) && Safe(f, intervals, slots)
    requires FirstFit(f, intervals, home) && InHomes(intervals, slots, home) && Safe(f, intervals, other)
    ensures |SlotsOf(f, intervals, slots, ty)| <= |SlotsOf(f, intervals, other, ty)|
  {
    hide FirstFit, InHomes, Ordered, Forward, Safe, SlotsOf;
    SafeFits(f, intervals, slots);
    SafeFits(f, intervals, other);
    var mine := SlotsOf(f, intervals, slots, ty);
    if mine != {} {
      NoSlots(f, intervals, slots, ty);
      var k := LastHome(f, intervals, home, ty, |intervals|);
      forall r | r in mine ensures exists i :: HoldsFor(f, intervals, slots, ty, k, r, i) {
        var i := SomeHolding(f, intervals, slots, home, ty, k, r);
        assert HoldsFor(f, intervals, slots, ty, k, r, i);
      }
      HoldersFit(f, intervals, slots, other, ty, k, mine);
    }
  }

  lemma HoldersFit(f: Func, intervals: seq<Interval>, slots: Slots, other: Slots, ty: nat, k: nat, mine: set<nat>)
    requires Safe(f, intervals, other) && Forward(intervals) && k < |intervals| && |slots| == |f.types| == |other|
    requires forall i :: 0 <= i < |intervals| ==> intervals[i].temp < |other|
    requires forall r :: r in mine ==> exists i :: HoldsFor(f, intervals, slots, ty, k, r, i)
    ensures |mine| <= |SlotsOf(f, intervals, other, ty)|
  {
    hide Safe, SlotsOf, Forward;
    var m := map r | r in mine :: other[intervals[HolderOf(f, intervals, slots, ty, k, r)].temp];
    forall r, s | r in mine && s in mine && r != s ensures m[r] != m[s] {
      HoldersApart(f, intervals, other, HolderOf(f, intervals, slots, ty, k, r),
                   HolderOf(f, intervals, slots, ty, k, s), k);
    }
    forall r | r in mine ensures m[r] in SlotsOf(f, intervals, other, ty) {
      SlotIn(f, intervals, other, ty, HolderOf(f, intervals, slots, ty, k, r));
    }
    InjectedSize(mine, SlotsOf(f, intervals, other, ty), m);
  }
}
