/** Payload-type allocation: which types come out, when it fails, and that no two codecs share one. */
module SdpAllocation {
  import opened Text
  import opened SdpModel
  import opened SdpBuilder

  /** The types `n`..127 without the telephone-event preference, in order. */
  function PoolFrom(n: nat, pref: int): seq<int>
    decreases 128 - n
  {
    if n >= 128 then [] else (if n == pref then [] else [n]) + PoolFrom(n + 1, pref)
  }

  function Pool(pref: int): seq<int> { PoolFrom(96, pref) }

  /** How many of the first `i` codecs draw from the pool. */
  function Draws(codecs: seq<Codec>, i: nat): nat
    requires i <= |codecs|
  {
    if i == 0 then 0 else Draws(codecs, i - 1) + (if codecs[i - 1].FromPool() then 1 else 0)
  }

  lemma {:induction false} PoolShape(n: nat, pref: int)
    requires n <= 128
    ensures |PoolFrom(n, pref)| == 128 - n - (if n <= pref < 128 then 1 else 0)
    ensures forall i | 0 <= i < |PoolFrom(n, pref)| :: n <= PoolFrom(n, pref)[i] < 128 && PoolFrom(n, pref)[i] != pref
    ensures forall i, j | 0 <= i < j < |PoolFrom(n, pref)| :: PoolFrom(n, pref)[i] < PoolFrom(n, pref)[j]
    decreases 128 - n
  {
    if n < 128 { PoolShape(n + 1, pref); }
  }

  /** A draw takes the head of the pool and fails exactly when the pool is empty. */
  lemma DrawTakesHead(next: nat, pref: int)
    requires next <= 128
    ensures Draw(next, pref).Some? <==> PoolFrom(next, pref) != []
    ensures Draw(next, pref).Some? ==>
              var (pt, n) := Draw(next, pref).value;
              n <= 128 && PoolFrom(next, pref) == [pt] + PoolFrom(n, pref)
  {
    if next < 128 {
      var tail := PoolFrom(next + 1, pref);
      if next == pref {
        assert PoolFrom(next, pref) == [] + tail == tail;
        assert next + 1 < 128 ==> tail == [next + 1] + PoolFrom(next + 2, pref);
      } else {
        assert PoolFrom(next, pref) == [next] + tail;
      }
    }
  }

  lemma {:induction false} DrawsTail(codecs: seq<Codec>, i: nat)
    requires 0 < i <= |codecs|
    ensures Draws(codecs, i) == Draws(codecs[1..], i - 1) + (if codecs[0].FromPool() then 1 else 0)
    decreases i
  {
    if i > 1 {
      DrawsTail(codecs, i - 1);
      assert codecs[1..][i - 2] == codecs[i - 1];
    }
  }

  /** The payload type of codec `i` when the pool holds `pool`. */
  ghost predicate GivenPt(codecs: seq<Codec>, pref: int, pool: seq<int>, i: nat, pt: int)
    requires i < |codecs|
  {
    if codecs[i].staticPt.Some? then pt == codecs[i].staticPt.value
    else if codecs[i].IsTelephoneEvent() then pt == pref
    else Draws(codecs, i) < |pool| && pt == pool[Draws(codecs, i)]
  }

  lemma {:induction false} AssignPtsFrom(codecs: seq<Codec>, pref: int, next: nat)
    requires next <= 128
    ensures AssignPts(codecs, pref, next).Some? <==> Draws(codecs, |codecs|) <= |PoolFrom(next, pref)|
    ensures AssignPts(codecs, pref, next).Some? ==>
              forall i | 0 <= i < |codecs| ::
                GivenPt(codecs, pref, PoolFrom(next, pref), i, AssignPts(codecs, pref, next).value[i])
    decreases |codecs|
  {
    if codecs != [] {
      var c, rest := codecs[0], codecs[1..];
      DrawTakesHead(next, pref);
      DrawsTail(codecs, |codecs|);
      var a := AssignPt(c, pref, next);
      if a.Some? {
        var n := a.value.1;
        AssignPtsFrom(rest, pref, n);
        var pts := AssignPts(codecs, pref, next);
        if pts.Some? {
          forall i | 0 <= i < |codecs|
            ensures GivenPt(codecs, pref, PoolFrom(next, pref), i, pts.value[i])
          {
            if i > 0 {
              DrawsTail(codecs, i);
              assert rest[i - 1] == codecs[i];
              assert GivenPt(rest, pref, PoolFrom(n, pref), i - 1, AssignPts(rest, pref, n).value[i - 1]);
            }
          }
        }
      }
    }
  }

  /**
   The allocator, exactly: it succeeds when at most 31 codecs draw from the pool if the
   telephone-event preference lies in 96..127, and at most 32 otherwise; static codecs keep
   their type, telephone-event gets the preference, and the rest get the first types of
   96..127 without the preference, in codec order.
   */
  lemma AllocatorExact(codecs: seq<Codec>, pref: int)
    ensures AssignPts(codecs, pref, 96).Some? <==>
            Draws(codecs, |codecs|) <= if 96 <= pref <= 127 then 31 else 32
    ensures AssignPts(codecs, pref, 96).Some? ==>
              forall i | 0 <= i < |codecs| :: GivenPt(codecs, pref, Pool(pref), i, AssignPts(codecs, pref, 96).value[i])
  {
    PoolShape(96, pref);
    AssignPtsFrom(codecs, pref, 96);
  }

  // ---------- No two codecs share a type ----------

  /**
   Types that cannot clash: distinct static ones below 96, at most one telephone-event without a
   static type, and then its preference is no static type.
   */
  ghost predicate CompatiblePts(codecs: seq<Codec>, pref: int) {
    && (forall i | 0 <= i < |codecs| && codecs[i].staticPt.Some? :: 0 <= codecs[i].staticPt.value < 96)
    && (forall i, j | 0 <= i < j < |codecs| && codecs[i].staticPt.Some? && codecs[j].staticPt.Some? ::
          codecs[i].staticPt != codecs[j].staticPt)
    && (forall i, j | 0 <= i < j < |codecs| :: !(codecs[i].TakesPreference() && codecs[j].TakesPreference()))
    && (forall i | 0 <= i < |codecs| && codecs[i].IsTelephoneEvent() :: pref >= 0)
    && (forall i, j | 0 <= i < |codecs| && 0 <= j < |codecs| && codecs[i].TakesPreference() ::
          codecs[j].staticPt != Some(pref))
  }

  lemma {:induction false} DrawsMonotone(codecs: seq<Codec>, i: nat, j: nat)
    requires i <= j <= |codecs|
    ensures Draws(codecs, i) <= Draws(codecs, j)
    decreases j
  {
    if i < j { DrawsMonotone(codecs, i, j - 1); }
  }

  lemma PoolTypes(codecs: seq<Codec>, pref: int, i: nat, p: int)
    requires i < |codecs| && codecs[i].FromPool() && GivenPt(codecs, pref, Pool(pref), i, p)
    ensures p >= 96 && p != pref
  {
    PoolShape(96, pref);
    hide PoolFrom, Draws;
  }

  lemma PoolPair(codecs: seq<Codec>, pref: int, i: nat, j: nat, p: int, q: int)
    requires i < j < |codecs| && codecs[i].FromPool() && codecs[j].FromPool()
    requires GivenPt(codecs, pref, Pool(pref), i, p) && GivenPt(codecs, pref, Pool(pref), j, q)
    ensures p != q
  {
    PoolShape(96, pref);
    DrawsMonotone(codecs, i + 1, j);
    assert Draws(codecs, i) < Draws(codecs, j);
    hide PoolFrom, Draws;
  }

  lemma PairDistinct(codecs: seq<Codec>, pref: int, i: nat, j: nat, p: int, q: int)
    requires CompatiblePts(codecs, pref) && i < j < |codecs|
    requires GivenPt(codecs, pref, Pool(pref), i, p) && GivenPt(codecs, pref, Pool(pref), j, q)
    ensures p != q && p >= 0 && q >= 0
  {
    hide Pool, PoolFrom, Draws;
    if codecs[i].FromPool() { PoolTypes(codecs, pref, i, p); }
    if codecs[j].FromPool() { PoolTypes(codecs, pref, j, q); }
    if codecs[i].FromPool() && codecs[j].FromPool() { PoolPair(codecs, pref, i, j, p, q); }
  }

  lemma AllocatedDistinct(codecs: seq<Codec>, pref: int)
    requires CompatiblePts(codecs, pref) && AssignPts(codecs, pref, 96).Some?
    ensures Distinct(AssignPts(codecs, pref, 96).value)
    ensures forall i | 0 <= i < |codecs| :: AssignPts(codecs, pref, 96).value[i] >= 0
  {
    var pts := AssignPts(codecs, pref, 96).value;
    AllocatorExact(codecs, pref);
    PoolShape(96, pref);
    hide AssignPts, PoolFrom;
    forall i, j | 0 <= i < j < |codecs| ensures pts[i] != pts[j] {
      PairDistinct(codecs, pref, i, j, pts[i], pts[j]);
    }
    forall i | 0 <= i < |codecs| ensures pts[i] >= 0 {
      assert GivenPt(codecs, pref, Pool(pref), i, pts[i]);
    }
  }
}
