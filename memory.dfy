/**
  The target process's memory, as the scanners see it.

  A memory map entry (`proc_maps::MapRange`) is a record captured once at attach
  time. The process memory itself is a static image: reading a value of type T
  at an address either yields the value or fails (`None`), which is how the
  foreign `read_mem` is abstracted. Every scan reads at each byte offset of a
  region (stride 1), so adjacent reads overlap.
*/
module Memory {
  import opened Wrappers

  datatype MapRange = MapRange(
    start: nat,
    size: nat,
    read: bool,
    write: bool,
    exec: bool,
    filename: Option<string>)

  /** A snapshot of what a typed read at each address returns. */
  type Image<T> = nat -> Option<T>

  predicate InRegion(m: MapRange, a: nat) {
    m.start <= a < m.start + m.size
  }

  /** The closure `|a, b| a == b` that every caller in the repository passes as the condition. */
  predicate Equal<T(==)>(a: T, b: T) {
    a == b
  }

  /** The read at `a` succeeds and the value satisfies `cond(value, copied)`. */
  predicate Hits<T>(img: Image<T>, value: T, cond: (T, T) -> bool, a: nat) {
    match img(a)
    case Some(copied) => cond(value, copied)
    case None => false
  }

  /** The hitting addresses among start, start + 1, ..., start + k - 1, ascending. */
  function OffsetScan<T>(start: nat, k: nat, img: Image<T>, value: T, cond: (T, T) -> bool): seq<nat>
    decreases k
  {
    if k == 0 then []
    else OffsetScan(start, k - 1, img, value, cond)
         + (if Hits(img, value, cond, start + k - 1) then [start + k - 1] else [])
  }

  /** Scan every region that `sel` accepts, in map order, each by ascending offset; failed reads are skipped. */
  function RegionsScan<T>(maps: seq<MapRange>, sel: MapRange -> bool, img: Image<T>, value: T,
                          cond: (T, T) -> bool): seq<nat>
    decreases |maps|
  {
    if maps == [] then []
    else
      var m := maps[|maps| - 1];
      RegionsScan(maps[..|maps| - 1], sel, img, value, cond)
      + (if sel(m) then OffsetScan(m.start, m.size, img, value, cond) else [])
  }

  /** An address is reported by an offset scan exactly when it is in range and hits. */
  lemma {:induction false} OffsetScanMembership<T>(start: nat, k: nat, img: Image<T>, value: T,
                                                   cond: (T, T) -> bool, a: nat)
    ensures a in OffsetScan(start, k, img, value, cond) <==> start <= a < start + k && Hits(img, value, cond, a)
  {
    if k > 0 {
      OffsetScanMembership(start, k - 1, img, value, cond, a);
    }
  }

  /** An offset scan reports strictly ascending addresses, all inside the scanned range. */
  lemma {:induction false} OffsetScanAscending<T>(start: nat, k: nat, img: Image<T>, value: T,
                                                  cond: (T, T) -> bool)
    ensures forall i :: 0 <= i < |OffsetScan(start, k, img, value, cond)| ==>
      start <= OffsetScan(start, k, img, value, cond)[i] < start + k
    ensures forall i, j :: 0 <= i < j < |OffsetScan(start, k, img, value, cond)| ==>
      OffsetScan(start, k, img, value, cond)[i] < OffsetScan(start, k, img, value, cond)[j]
  {
    if k > 0 {
      OffsetScanAscending(start, k - 1, img, value, cond);
      var p := OffsetScan(start, k - 1, img, value, cond);
      if Hits(img, value, cond, start + k - 1) {
        assert forall i :: 0 <= i < |p| ==> OffsetScan(start, k, img, value, cond)[i] == p[i];
      }
    }
  }

  /**
    An address is reported by a region scan exactly when some selected region
    contains it and the read there hits.
  */
  lemma {:induction false} RegionsScanMembership<T>(maps: seq<MapRange>, sel: MapRange -> bool, img: Image<T>,
                                                    value: T, cond: (T, T) -> bool, a: nat)
    ensures a in RegionsScan(maps, sel, img, value, cond)
      <==> (exists i :: 0 <= i < |maps| && sel(maps[i]) && InRegion(maps[i], a)) && Hits(img, value, cond, a)
    decreases |maps|
  {
    if maps != [] {
      var n := |maps| - 1;
      var m := maps[n];
      var init := maps[..n];
      RegionsScanMembership(init, sel, img, value, cond, a);
      OffsetScanMembership(m.start, m.size, img, value, cond, a);
      if exists i :: 0 <= i < |maps| && sel(maps[i]) && InRegion(maps[i], a) {
        var i :| 0 <= i < |maps| && sel(maps[i]) && InRegion(maps[i], a);
        if i < n {
          assert init[i] == maps[i];
        }
      }
      if exists i :: 0 <= i < |init| && sel(init[i]) && InRegion(init[i], a) {
        var i :| 0 <= i < |init| && sel(init[i]) && InRegion(init[i], a);
        assert maps[i] == init[i];
      }
    }
  }

  /** Scanning a map split in two is scanning each part in turn: results come in map order. */
  lemma {:induction false} RegionsScanAppend<T>(m1: seq<MapRange>, m2: seq<MapRange>, sel: MapRange -> bool,
                                                img: Image<T>, value: T, cond: (T, T) -> bool)
    ensures RegionsScan(m1 + m2, sel, img, value, cond)
         == RegionsScan(m1, sel, img, value, cond) + RegionsScan(m2, sel, img, value, cond)
    decreases |m2|
  {
    if m2 == [] {
      assert m1 + m2 == m1;
    } else {
      var n := |m2| - 1;
      RegionsScanAppend(m1, m2[..n], sel, img, value, cond);
      assert (m1 + m2)[..|m1 + m2| - 1] == m1 + m2[..n];
      assert (m1 + m2)[|m1 + m2| - 1] == m2[n];
    }
  }
}
