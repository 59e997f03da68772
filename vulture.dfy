/**
  The scanning engine of crates/core (the `vulture` crate).

  A `DefaultScanner` owns a process handle and the candidate addresses of one
  value. `FindValues` either rebuilds the candidates from every eligible region
  (Initialize) or keeps only the candidates that still match (Prune);
  `FindPointers` lists the places that hold a given address. Reads go through
  a memory image passed to each call, standing for the live process at that
  moment.
*/
module Vulture {
  import opened Wrappers
  import opened Memory

  /** `i32` */
  type Pid = x: int | -0x8000_0000 <= x < 0x8000_0000

  /** The attached process: its pid and the memory map captured at attach time (never refreshed). */
  datatype ProcessHandle = ProcessHandle(pid: Pid, procMaps: seq<MapRange>) {
    function GetPid(): Pid {
      pid
    }

    function GetProcMaps(): seq<MapRange> {
      procMaps
    }
  }

  /** `ProcessHandle::new`, with the operating system's answer for the memory map given as `snapshot`. */
  function Attach(pid: Pid, snapshot: seq<MapRange>): ProcessHandle {
    ProcessHandle(pid, snapshot)
  }

  /** The getters hand back what was captured at attach time, unchanged. */
  lemma AttachGetters(pid: Pid, snapshot: seq<MapRange>)
    ensures Attach(pid, snapshot).GetPid() == pid
    ensures Attach(pid, snapshot).GetProcMaps() == snapshot
  {
  }

  datatype ScanType = Initialize | Prune

  /** Readable, writable and anonymous: the only regions any scan of this crate looks at. */
  predicate Eligible(m: MapRange) {
    m.read && m.write && m.filename.None?
  }

  /** `retain` with the Prune test: the candidates whose read succeeds and satisfies `cond`, in order. */
  function Retain<T>(cands: seq<nat>, img: Image<T>, value: T, cond: (T, T) -> bool): seq<nat>
    decreases |cands|
  {
    if cands == [] then []
    else
      var a := cands[|cands| - 1];
      Retain(cands[..|cands| - 1], img, value, cond) + (if Hits(img, value, cond, a) then [a] else [])
  }

  /** `sub` is `s` with some elements deleted and the rest in their original order. */
  predicate IsSubsequence(sub: seq<nat>, s: seq<nat>)
    decreases |s|
  {
    if sub == [] then true
    else if s == [] then false
    else if sub[|sub| - 1] == s[|s| - 1] then IsSubsequence(sub[..|sub| - 1], s[..|s| - 1])
    else IsSubsequence(sub, s[..|s| - 1])
  }

  lemma {:induction false} SubsequenceShorter(sub: seq<nat>, s: seq<nat>)
    requires IsSubsequence(sub, s)
    ensures |sub| <= |s|
    decreases |s|
  {
    if sub != [] && s != [] {
      if sub[|sub| - 1] == s[|s| - 1] {
        SubsequenceShorter(sub[..|sub| - 1], s[..|s| - 1]);
      } else {
        SubsequenceShorter(sub, s[..|s| - 1]);
      }
    }
  }

  /** Prune keeps exactly the old candidates whose read succeeds and satisfies `cond`; a failed read drops the address. */
  lemma {:induction false} RetainMembership<T>(cands: seq<nat>, img: Image<T>, value: T, cond: (T, T) -> bool, a: nat)
    ensures a in Retain(cands, img, value, cond) <==> a in cands && Hits(img, value, cond, a)
    ensures img(a).None? ==> a !in Retain(cands, img, value, cond)
    decreases |cands|
  {
    if cands != [] {
      var init := cands[..|cands| - 1];
      RetainMembership(init, img, value, cond, a);
      assert cands == init + [cands[|cands| - 1]];
    }
  }

  /** Prune never adds an address, never reorders, and never grows the candidates. */
  lemma {:induction false} RetainIsSubsequence<T>(cands: seq<nat>, img: Image<T>, value: T, cond: (T, T) -> bool)
    ensures IsSubsequence(Retain(cands, img, value, cond), cands)
    ensures |Retain(cands, img, value, cond)| <= |cands|
    decreases |cands|
  {
    var r := Retain(cands, img, value, cond);
    if cands != [] {
      var init := cands[..|cands| - 1];
      var a := cands[|cands| - 1];
      RetainIsSubsequence(init, img, value, cond);
      if Hits(img, value, cond, a) {
        assert r[..|r| - 1] == Retain(init, img, value, cond);
        assert r[|r| - 1] == a;
      } else {
        assert r == Retain(init, img, value, cond);
        SubsequenceExtend(r, cands);
      }
    }
    SubsequenceShorter(r, cands);
  }

  /** A subsequence of all but the last element of `s` is a subsequence of `s`. */
  lemma {:induction false} SubsequenceExtend(sub: seq<nat>, s: seq<nat>)
    requires s != [] && IsSubsequence(sub, s[..|s| - 1])
    ensures IsSubsequence(sub, s)
    decreases |s|, 0
  {
    if sub != [] && sub[|sub| - 1] == s[|s| - 1] {
      SubsequenceDropLast(sub, s[..|s| - 1]);
    }
  }

  /** Dropping the last element of a subsequence keeps it a subsequence. */
  lemma {:induction false} SubsequenceDropLast(sub: seq<nat>, t: seq<nat>)
    requires sub != [] && IsSubsequence(sub, t)
    ensures IsSubsequence(sub[..|sub| - 1], t)
    decreases |t|, 1
  {
    var init := sub[..|sub| - 1];
    if sub[|sub| - 1] != t[|t| - 1] {
      SubsequenceDropLast(sub, t[..|t| - 1]);
    }
    SubsequenceExtend(init, t);
  }

  /** When every candidate still hits, Prune leaves the candidates exactly as they were. */
  lemma {:induction false} RetainAllHit<T>(cands: seq<nat>, img: Image<T>, value: T, cond: (T, T) -> bool)
    requires forall i :: 0 <= i < |cands| ==> Hits(img, value, cond, cands[i])
    ensures Retain(cands, img, value, cond) == cands
    decreases |cands|
  {
    if cands != [] {
      var init := cands[..|cands| - 1];
      RetainAllHit(init, img, value, cond);
      assert cands == init + [cands[|cands| - 1]];
    }
  }

  /** A second identical Prune on the same memory changes nothing. */
  lemma RetainIdempotent<T>(cands: seq<nat>, img: Image<T>, value: T, cond: (T, T) -> bool)
    ensures Retain(Retain(cands, img, value, cond), img, value, cond) == Retain(cands, img, value, cond)
  {
    var r := Retain(cands, img, value, cond);
    forall i | 0 <= i < |r|
      ensures Hits(img, value, cond, r[i])
    {
      RetainMembership(cands, img, value, cond, r[i]);
    }
    RetainAllHit(r, img, value, cond);
  }

  /**
    On an unchanged memory image, a Prune with the same value and condition
    right after an Initialize keeps every candidate, in whatever order the
    Initialize collected them.
  */
  lemma PruneAfterInitialize<T>(cands: seq<nat>, maps: seq<MapRange>, img: Image<T>, value: T, cond: (T, T) -> bool)
    requires multiset(cands) == multiset(RegionsScan(maps, Eligible, img, value, cond))
    ensures Retain(cands, img, value, cond) == cands
  {
    forall i | 0 <= i < |cands|
      ensures Hits(img, value, cond, cands[i])
    {
      assert cands[i] in multiset(cands);
      RegionsScanMembership(maps, Eligible, img, value, cond, cands[i]);
    }
    RetainAllHit(cands, img, value, cond);
  }

  /**
    The region filter: an Initialize or pointer scan reports an address exactly
    when a readable, writable, anonymous region holds it and the read there hits.
  */
  lemma ScanReportsOnlyEligible<T>(maps: seq<MapRange>, img: Image<T>, value: T, cond: (T, T) -> bool, a: nat)
    ensures a in RegionsScan(maps, Eligible, img, value, cond)
      <==> (exists i :: 0 <= i < |maps| && maps[i].read && maps[i].write && maps[i].filename.None?
                        && InRegion(maps[i], a))
           && Hits(img, value, cond, a)
  {
    RegionsScanMembership(maps, Eligible, img, value, cond, a);
  }

  /** Some readable, writable, anonymous region of `maps` holds `a`. */
  predicate InEligibleRegion(maps: seq<MapRange>, a: nat) {
    exists i :: 0 <= i < |maps| && Eligible(maps[i]) && InRegion(maps[i], a)
  }

  /** Every address of `cands` lies in an eligible region of `maps`. */
  predicate AllEligible(maps: seq<MapRange>, cands: seq<nat>) {
    forall a :: a in cands ==> InEligibleRegion(maps, a)
  }

  /** Whatever order Initialize collected them in, its candidates lie in eligible regions. */
  lemma InitializeEligible<T>(cands: seq<nat>, maps: seq<MapRange>, img: Image<T>, value: T, cond: (T, T) -> bool)
    requires multiset(cands) == multiset(RegionsScan(maps, Eligible, img, value, cond))
    ensures AllEligible(maps, cands)
  {
    forall a | a in cands
      ensures InEligibleRegion(maps, a)
    {
      assert a in multiset(cands);
      RegionsScanMembership(maps, Eligible, img, value, cond, a);
    }
  }

  /** Prune keeps candidates inside eligible regions. */
  lemma PruneEligible<T>(cands: seq<nat>, maps: seq<MapRange>, img: Image<T>, value: T, cond: (T, T) -> bool)
    requires AllEligible(maps, cands)
    ensures AllEligible(maps, Retain(cands, img, value, cond))
  {
    forall a | a in Retain(cands, img, value, cond)
      ensures InEligibleRegion(maps, a)
    {
      RetainMembership(cands, img, value, cond, a);
    }
  }

  class DefaultScanner {
    const process: ProcessHandle
    var candidates: seq<nat>

    /** `DefaultScanner::new`: no candidates yet. */
    constructor (process: ProcessHandle)
      ensures this.process == process
      ensures candidates == []
    {
      this.process := process;
      candidates := [];
    }

    /**
      The loop shared by Initialize and `find_pointers`: every byte offset of
      every eligible region, in map order, kept when the read succeeds and
      `cond(value, copied)` holds.
    */
    method CollectMatches<T>(img: Image<T>, value: T, cond: (T, T) -> bool) returns (found: seq<nat>)
      ensures found == RegionsScan(process.GetProcMaps(), Eligible, img, value, cond)
    {
      var maps := process.GetProcMaps();
      found := [];
      var i := 0;
      while i < |maps|
        invariant 0 <= i <= |maps|
        invariant found == RegionsScan(maps[..i], Eligible, img, value, cond)
      {
        var region := maps[i];
        if region.read && region.write && region.filename.None? {
          var offset := 0;
          while offset < region.size
            invariant 0 <= offset <= region.size
            invariant found == RegionsScan(maps[..i], Eligible, img, value, cond)
                               + OffsetScan(region.start, offset, img, value, cond)
          {
            var address := region.start + offset;
            match img(address) {
              case Some(copied) =>
                if cond(value, copied) {
                  found := found + [address];
                }
              case None =>
            }
            offset := offset + 1;
          }
        }
        assert maps[..i + 1][..i] == maps[..i];
        i := i + 1;
      }
      assert maps[..i] == maps;
    }

    /**
      `find_values`: Initialize replaces the candidates by everything the
      eligible regions hold that matches (the source collects them from
      parallel workers, so only the multiset is promised); Prune keeps the
      old candidates that still match, in order. The new candidates are
      returned and there is no error path.
    */
    method FindValues<T>(value: T, cond: (T, T) -> bool, scanType: ScanType, img: Image<T>)
      returns (r: Result<seq<nat>>)
      modifies this
      ensures r == Ok(candidates)
      ensures scanType == Initialize ==>
        multiset(candidates) == multiset(RegionsScan(process.GetProcMaps(), Eligible, img, value, cond))
      ensures scanType == Prune ==> candidates == Retain(old(candidates), img, value, cond)
      ensures scanType == Initialize || AllEligible(process.procMaps, old(candidates)) ==>
        AllEligible(process.procMaps, candidates)
    {
      match scanType {
        case Initialize =>
          candidates := [];
          candidates := CollectMatches(img, value, cond);
        case Prune =>
          var kept := [];
          var i := 0;
          while i < |candidates|
            invariant 0 <= i <= |candidates|
            invariant candidates == old(candidates)
            invariant kept == Retain(candidates[..i], img, value, cond)
          {
            var address := candidates[i];
            var keep := match img(address)
              case Some(copied) => cond(value, copied)
              case None => false;
            if keep {
              kept := kept + [address];
            }
            assert candidates[..i + 1][..i] == candidates[..i];
            i := i + 1;
          }
          assert candidates[..i] == candidates;
          if AllEligible(process.procMaps, candidates) {
            PruneEligible(candidates, process.procMaps, img, value, cond);
          }
          candidates := kept;
      }
      if scanType == Initialize {
        InitializeEligible(candidates, process.procMaps, img, value, cond);
      }
      r := Ok(candidates);
    }

    /**
      `find_pointers`: every offset of every eligible region whose pointer-sized
      read equals `address`, in map order then ascending; failed reads are
      skipped, the result is always `Ok` and the candidates are not touched.
    */
    method FindPointers(address: nat, img: Image<nat>) returns (r: Result<seq<nat>>)
      ensures r == Ok(RegionsScan(process.GetProcMaps(), Eligible, img, address, Equal))
    {
      var pointers := CollectMatches(img, address, Equal);
      r := Ok(pointers);
    }
  }
}
