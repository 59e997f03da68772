/**
  The standalone scanner of the repository root (src/main.rs): print every
  address of a readable, executable region whose `u32` equals the target,
  stopping the whole run at the first read that fails. Printing is modelled
  as appending to the output sequence.
*/
module Skanner {
  import opened Wrappers
  import opened Memory
  import opened Decimal

  /** The region filter of this tool: readable and executable, nothing else asked. */
  predicate ReadExec(m: MapRange) {
    m.read && m.exec
  }

  /** What has been printed so far, and whether a read failed (which ends the run). */
  datatype Run = Run(emitted: seq<nat>, failed: bool)

  /** The inner loop over offsets 0 .. k - 1 of a region starting at `start`. */
  function OffsetRun(start: nat, k: nat, img: Image<u32>, target: u32): Run
    decreases k
  {
    if k == 0 then Run([], false)
    else
      var p := OffsetRun(start, k - 1, img, target);
      if p.failed then p
      else match img(start + k - 1)
        case None => Run(p.emitted, true)
        case Some(v) => Run(p.emitted + (if v == target then [start + k - 1] else []), false)
  }

  /** The outer loop over the memory map, region by region. */
  function MainRun(maps: seq<MapRange>, img: Image<u32>, target: u32): Run
    decreases |maps|
  {
    if maps == [] then Run([], false)
    else
      var p := MainRun(maps[..|maps| - 1], img, target);
      var m := maps[|maps| - 1];
      if p.failed || !ReadExec(m) then p
      else
        var q := OffsetRun(m.start, m.size, img, target);
        Run(p.emitted + q.emitted, q.failed)
  }

  /**
    Within a region: what is printed is a prefix of the matching addresses,
    all of them when no read failed, and a read fails exactly when some
    address of the range cannot be read.
  */
  lemma {:induction false} OffsetRunPrefix(start: nat, k: nat, img: Image<u32>, target: u32)
    ensures OffsetRun(start, k, img, target).emitted <= OffsetScan(start, k, img, target, Equal)
    ensures !OffsetRun(start, k, img, target).failed ==>
      OffsetRun(start, k, img, target).emitted == OffsetScan(start, k, img, target, Equal)
    ensures OffsetRun(start, k, img, target).failed <==> exists a :: start <= a < start + k && img(a).None?
    decreases k
  {
    if k > 0 {
      OffsetRunPrefix(start, k - 1, img, target);
      var p := OffsetRun(start, k - 1, img, target);
      var s := OffsetScan(start, k - 1, img, target, Equal);
      var full := OffsetScan(start, k, img, target, Equal);
      assert s <= full;
      if p.failed {
        var a :| start <= a < start + k - 1 && img(a).None?;
      }
    }
  }

  /**
    Over the whole map: what is printed is a prefix of the matching addresses
    in map order, and all of them when the run succeeds.
  */
  lemma {:induction false} MainRunPrefix(maps: seq<MapRange>, img: Image<u32>, target: u32)
    ensures MainRun(maps, img, target).emitted <= RegionsScan(maps, ReadExec, img, target, Equal)
    ensures !MainRun(maps, img, target).failed ==>
      MainRun(maps, img, target).emitted == RegionsScan(maps, ReadExec, img, target, Equal)
    decreases |maps|
  {
    if maps != [] {
      var n := |maps| - 1;
      var init := maps[..n];
      var m := maps[n];
      MainRunPrefix(init, img, target);
      OffsetRunPrefix(m.start, m.size, img, target);
      var s := RegionsScan(init, ReadExec, img, target, Equal);
      var full := RegionsScan(maps, ReadExec, img, target, Equal);
      assert s <= full;
    }
  }

  /** The run fails exactly when some address of a readable, executable region cannot be read. */
  lemma {:induction false} MainRunFails(maps: seq<MapRange>, img: Image<u32>, target: u32)
    ensures MainRun(maps, img, target).failed <==>
      exists i, a :: 0 <= i < |maps| && ReadExec(maps[i]) && InRegion(maps[i], a) && img(a).None?
    decreases |maps|
  {
    if maps != [] {
      var n := |maps| - 1;
      var init := maps[..n];
      var m := maps[n];
      MainRunFails(init, img, target);
      OffsetRunPrefix(m.start, m.size, img, target);
      if MainRun(init, img, target).failed {
        var i, a :| 0 <= i < |init| && ReadExec(init[i]) && InRegion(init[i], a) && img(a).None?;
        assert maps[i] == init[i];
      } else {
        assert forall i :: 0 <= i < n ==> init[i] == maps[i];
        if ReadExec(m) && OffsetRun(m.start, m.size, img, target).failed {
          var a :| m.start <= a < m.start + m.size && img(a).None?;
          assert ReadExec(maps[n]) && InRegion(maps[n], a);
        }
      }
    }
  }

  /**
    A run that succeeds prints exactly the addresses of readable, executable
    regions whose `u32` equals the target.
  */
  lemma SuccessfulRunPrintsAllMatches(maps: seq<MapRange>, img: Image<u32>, target: u32, a: nat)
    requires !MainRun(maps, img, target).failed
    ensures a in MainRun(maps, img, target).emitted
      <==> (exists i :: 0 <= i < |maps| && ReadExec(maps[i]) && InRegion(maps[i], a)) && img(a) == Some(target)
  {
    MainRunPrefix(maps, img, target);
    RegionsScanMembership(maps, ReadExec, img, target, Equal, a);
  }

  /** Once a region's run fails, the rest of the map changes nothing. */
  lemma {:induction false} FailedRunStops(maps: seq<MapRange>, j: nat, img: Image<u32>, target: u32)
    requires j <= |maps| && MainRun(maps[..j], img, target).failed
    ensures MainRun(maps, img, target) == MainRun(maps[..j], img, target)
    decreases |maps| - j
  {
    if j < |maps| {
      assert maps[..j + 1][..j] == maps[..j];
      FailedRunStops(maps, j + 1, img, target);
    } else {
      assert maps[..j] == maps;
    }
  }

  /** Once a read fails inside a region, the remaining offsets change nothing. */
  lemma {:induction false} FailedOffsetRunStops(start: nat, j: nat, k: nat, img: Image<u32>, target: u32)
    requires j <= k && OffsetRun(start, j, img, target).failed
    ensures OffsetRun(start, k, img, target) == OffsetRun(start, j, img, target)
    decreases k - j
  {
    if j < k {
      FailedOffsetRunStops(start, j, k - 1, img, target);
    }
  }

  /**
    The inner loop of `main` over one region: read a `u32` at every byte
    offset and print the address when it equals the target, stopping at the
    first read that fails.
  */
  method ScanRegion(start: nat, size: nat, img: Image<u32>, target: u32) returns (found: seq<nat>, failed: bool)
    ensures Run(found, failed) == OffsetRun(start, size, img, target)
  {
    found := [];
    var offset := 0;
    while offset < size
      invariant 0 <= offset <= size
      invariant OffsetRun(start, offset, img, target) == Run(found, false)
    {
      var read := img(start + offset);
      match read {
        case None =>
          FailedOffsetRunStops(start, offset + 1, size, img, target);
          return found, true;
        case Some(value) =>
          if value == target {
            found := found + [start + offset];
          }
      }
      offset := offset + 1;
    }
    return found, false;
  }

  /**
    `main`: for each readable, executable region, scan it as above; the first
    failed read returns the error, and what was printed stays printed.
  */
  method ScanProcess(maps: seq<MapRange>, img: Image<u32>, target: u32) returns (emitted: seq<nat>, r: Result<()>)
    ensures Run(emitted, r.Err?) == MainRun(maps, img, target)
  {
    emitted := [];
    var i := 0;
    while i < |maps|
      invariant 0 <= i <= |maps|
      invariant MainRun(maps[..i], img, target) == Run(emitted, false)
    {
      var region := maps[i];
      assert maps[..i + 1][..i] == maps[..i];
      if region.read && region.exec {
        var found, failed := ScanRegion(region.start, region.size, img, target);
        emitted := emitted + found;
        if failed {
          FailedRunStops(maps, i + 1, img, target);
          return emitted, Err("failed to read process memory");
        }
      }
      i := i + 1;
    }
    assert maps[..i] == maps;
    return emitted, Ok(());
  }
}
