/**
  The observation tracker and scan worker of crates/game-poc.

  Each polling round turns OCR words into bounding boxes, matches each box
  against the tracked boxes (`BBSet::add`) and sends a scan message for every
  new or changed box; a single worker (`handle_scanner`) keeps one
  `DefaultScanner` per box id and runs Initialize or Prune for each message.
  Thread spawning, the channel and the polling timer are not part of this
  model: the round and the worker are modelled as sequential steps.
*/
module GamePoc {
  import opened Wrappers
  import opened Memory
  import opened Decimal
  import opened Vulture

  datatype BBoxItem = BBoxItem(id: string, x1: u32, y1: u32, x2: u32, y2: u32, text: string)

  /** The OCR service's word as this crate deserializes it (the confidence field is not read). */
  datatype OcrWord = OcrWord(x1: u32, y1: u32, x2: u32, y2: u32, text: string)

  datatype ChannelMsg = InitScan(item: BBoxItem) | ReScan(item: BBoxItem)

  /** The threshold `BBSet::new` sets. */
  const THRESHOLD: u32 := 5

  /**
    `Into<BBoxItem> for OCRWord`: coordinates and text are copied, and the id
    is the decimal forms of x1, x2, y1, y2 run together with no separator.
  */
  function ToBBoxItem(w: OcrWord): (b: BBoxItem)
    ensures b.x1 == w.x1 && b.y1 == w.y1 && b.x2 == w.x2 && b.y2 == w.y2 && b.text == w.text
    ensures IsDigits(b.id) && 4 <= |b.id|
    ensures |Show(w.x1)| <= |b.id| && b.id[..|Show(w.x1)|] == Show(w.x1)
  {
    var id := Show(w.x1) + Show(w.x2) + Show(w.y1) + Show(w.y2);
    assert forall i :: 0 <= i < |id| ==> IsDigit(id[i]);
    BBoxItem(id, w.x1, w.y1, w.x2, w.y2, w.text)
  }

  /** Without a separator, two different boxes can get the same id (x1 = 1, x2 = 23 against x1 = 12, x2 = 3). */
  lemma IdCollision()
    ensures OcrWord(1, 4, 23, 5, "7") != OcrWord(12, 4, 3, 5, "7")
    ensures ToBBoxItem(OcrWord(1, 4, 23, 5, "7")).id == ToBBoxItem(OcrWord(12, 4, 3, 5, "7")).id
  {
    assert Show(23) == Show(2) + Show(3);
    assert Show(12) == Show(1) + Show(2);
  }

  /** `within_bound` does not overflow or underflow: `v2 + thresh` fits, and `v2 - thresh` is evaluated only when it fits. */
  predicate BoundSafe(v1: u32, v2: u32, thresh: u32) {
    v2 + thresh < U32_LIMIT && (v1 >= v2 + thresh ==> thresh <= v2)
  }

  /**
    `within_bound` exactly as written: an OR of two one-sided tests. Whenever
    it does not panic it holds for every v1 once thresh > 0; with thresh = 0
    it only says v1 != v2.
  */
  function WithinBound(v1: u32, v2: u32, thresh: u32): (r: bool)
    requires BoundSafe(v1, v2, thresh)
    ensures r <==> (0 < thresh || v1 != v2)
  {
    (v1 < v2 + thresh) || (v1 > v2 - thresh)
  }

  /**
    `within_bound` in a build without overflow checks: both `u32` operations
    wrap modulo 2^32. Where the checked build does not panic, the two agree.
  */
  function WithinBoundWrapping(v1: u32, v2: u32, thresh: u32): (r: bool)
    ensures BoundSafe(v1, v2, thresh) ==> r == WithinBound(v1, v2, thresh)
  {
    (v1 < (v2 + thresh) % U32_LIMIT) || (v1 > (v2 - thresh) % U32_LIMIT)
  }

  /**
    Without overflow checks the test can fail: `2 - 5` wraps to 4294967293,
    so a box tracked at x1 = 100 does not match an observation at x1 = 2.
  */
  lemma WrappingCanMiss()
    ensures !BoundSafe(100, 2, THRESHOLD)
    ensures !WithinBoundWrapping(100, 2, THRESHOLD)
  {
  }

  /** The four `within_bound` calls of the `find` closure run without panic, respecting `&&`'s short circuit. */
  predicate MatchSafe(s: BBoxItem, b: BBoxItem, t: u32) {
    && BoundSafe(s.x1, b.x1, t)
    && (WithinBound(s.x1, b.x1, t) ==>
          && BoundSafe(s.x2, b.x2, t)
          && (WithinBound(s.x2, b.x2, t) ==>
                && BoundSafe(s.y1, b.y1, t)
                && (WithinBound(s.y1, b.y1, t) ==> BoundSafe(s.y2, b.y2, t))))
  }

  /** The `find` closure: the tracked box `s` is close to the observation `b` on all four coordinates. */
  predicate Matches(s: BBoxItem, b: BBoxItem, t: u32)
    requires MatchSafe(s, b, t)
  {
    WithinBound(s.x1, b.x1, t) && WithinBound(s.x2, b.x2, t)
    && WithinBound(s.y1, b.y1, t) && WithinBound(s.y2, b.y2, t)
  }

  /** `iter_mut().find` runs without panic: each item it tests, up to the first match, is safe to test. */
  predicate FindSafe(items: seq<BBoxItem>, b: BBoxItem, t: u32)
    decreases |items|
  {
    items == [] || (MatchSafe(items[0], b, t) && (!Matches(items[0], b, t) ==> FindSafe(items[1..], b, t)))
  }

  /** The position of the first tracked box, in insertion order, that matches the observation. */
  function FirstMatch(items: seq<BBoxItem>, b: BBoxItem, t: u32): (r: Option<nat>)
    requires FindSafe(items, b, t)
    ensures r.Some? ==> r.value < |items| && MatchSafe(items[r.value], b, t) && Matches(items[r.value], b, t)
    ensures forall j :: 0 <= j < |items| && (r.None? || j < r.value) ==>
      MatchSafe(items[j], b, t) && !Matches(items[j], b, t)
    decreases |items|
  {
    if items == [] then None
    else if Matches(items[0], b, t) then Some(0)
    else match FirstMatch(items[1..], b, t)
      case None => None
      case Some(k) => Some(k + 1)
  }

  /** Once the threshold is positive, the first tracked box always matches: the tracker never looks further. */
  lemma FirstTrackedAlwaysMatches(items: seq<BBoxItem>, b: BBoxItem, t: u32)
    requires 0 < t && items != [] && FindSafe(items, b, t)
    ensures FirstMatch(items, b, t) == Some(0)
  {
  }

  datatype AddOutcome = AddOutcome(items: seq<BBoxItem>, result: Option<(bool, BBoxItem)>)

  /** What `BBSet::add` does to the tracked boxes and what it returns. */
  function AddSpec(items: seq<BBoxItem>, b: BBoxItem, t: u32): AddOutcome
    requires FindSafe(items, b, t)
  {
    match FirstMatch(items, b, t)
    case None => AddOutcome(items + [b], Some((false, b)))
    case Some(k) =>
      if items[k].text != b.text then
        var word := items[k].(text := b.text);
        AddOutcome(items[k := word], Some((true, word)))
      else AddOutcome(items, None)
  }

  /** No tracked box matches: the observation is appended and returned as new. */
  lemma AddAppendsUnmatched(items: seq<BBoxItem>, b: BBoxItem, t: u32)
    requires FindSafe(items, b, t)
    requires forall j :: 0 <= j < |items| ==> MatchSafe(items[j], b, t) && !Matches(items[j], b, t)
    ensures AddSpec(items, b, t).items == items + [b]
    ensures |AddSpec(items, b, t).items| == |items| + 1
    ensures AddSpec(items, b, t).result == Some((false, b))
  {
  }

  /**
    The first match has other text: only its text changes, and the returned
    box is the tracked one (its id and coordinates, not the observation's).
  */
  lemma AddUpdatesFirstMatch(items: seq<BBoxItem>, b: BBoxItem, t: u32, k: nat)
    requires FindSafe(items, b, t)
    requires k < |items| && MatchSafe(items[k], b, t) && Matches(items[k], b, t)
    requires forall j :: 0 <= j < k ==> MatchSafe(items[j], b, t) && !Matches(items[j], b, t)
    requires items[k].text != b.text
    ensures var o := AddSpec(items, b, t);
      |o.items| == |items| && o.items[k] == items[k].(text := b.text)
      && o.result == Some((true, o.items[k]))
    ensures forall j :: 0 <= j < |items| && j != k ==> AddSpec(items, b, t).items[j] == items[j]
  {
    var r := FirstMatch(items, b, t);
    assert r.Some? && r.value == k;
  }

  /** The first match already has this text: nothing changes and nothing is returned. */
  lemma AddIgnoresUnchanged(items: seq<BBoxItem>, b: BBoxItem, t: u32, k: nat)
    requires FindSafe(items, b, t)
    requires k < |items| && MatchSafe(items[k], b, t) && Matches(items[k], b, t)
    requires forall j :: 0 <= j < k ==> MatchSafe(items[j], b, t) && !Matches(items[j], b, t)
    requires items[k].text == b.text
    ensures AddSpec(items, b, t) == AddOutcome(items, None)
  {
    var r := FirstMatch(items, b, t);
    assert r.Some? && r.value == k;
  }

  /** `add` never removes a box, and touches at most the text of one existing box. */
  lemma AddNeverRemoves(items: seq<BBoxItem>, b: BBoxItem, t: u32)
    requires FindSafe(items, b, t)
    ensures var o := AddSpec(items, b, t);
      |items| <= |o.items| <= |items| + 1 &&
      (forall j :: 0 <= j < |items| ==> o.items[j].(text := items[j].text) == items[j])
    ensures forall i, j :: 0 <= i < j < |items| && AddSpec(items, b, t).items[i] != items[i] ==>
      AddSpec(items, b, t).items[j] == items[j]
  {
  }

  /** With a positive threshold the tracker never holds more than one box. */
  lemma AddKeepsAtMostOne(items: seq<BBoxItem>, b: BBoxItem, t: u32)
    requires 0 < t && |items| <= 1 && FindSafe(items, b, t)
    ensures |AddSpec(items, b, t).items| <= 1
  {
    if items != [] {
      FirstTrackedAlwaysMatches(items, b, t);
    }
  }

  /** `BBSet`: the tracked boxes, in insertion order. */
  class BBSet {
    const threshold: u32
    var items: seq<BBoxItem>

    /** `BBSet::new` */
    constructor ()
      ensures threshold == THRESHOLD && items == []
    {
      threshold := THRESHOLD;
      items := [];
    }

    /** `BBSet::add`: find the first close box, then append, update its text, or do nothing. */
    method Add(bbox: BBoxItem) returns (r: Option<(bool, BBoxItem)>)
      requires FindSafe(items, bbox, threshold)
      modifies this
      ensures AddOutcome(items, r) == AddSpec(old(items), bbox, threshold)
    {
      var i := 0;
      while i < |items| && !Matches(items[i], bbox, threshold)
        invariant 0 <= i <= |items|
        invariant FindSafe(items[i..], bbox, threshold)
        invariant forall j :: 0 <= j < i ==> MatchSafe(items[j], bbox, threshold) && !Matches(items[j], bbox, threshold)
      {
        assert items[i..][1..] == items[i + 1..];
        i := i + 1;
      }
      if i < |items| {
        if items[i].text != bbox.text {
          var word := items[i].(text := bbox.text);
          items := items[i := word];
          return Some((true, word));
        }
        return None;
      }
      items := items + [bbox];
      return Some((false, bbox));
    }
  }

  /** The message the polling loop sends for one `add` result. */
  function MessageFor(res: Option<(bool, BBoxItem)>): (m: Option<ChannelMsg>)
    ensures m.Some? <==> res.Some?
    ensures m.Some? ==> m.value.item == res.value.1 && (m.value.ReScan? <==> res.value.0)
  {
    match res
    case Some((true, b)) => Some(ReScan(b))
    case Some((false, b)) => Some(InitScan(b))
    case None => None
  }

  datatype Dispatched = Dispatched(items: seq<BBoxItem>, sent: seq<ChannelMsg>)

  /** Every `add` of a round runs without panic, each against the boxes the earlier ones left. */
  predicate DispatchSafe(items: seq<BBoxItem>, records: seq<BBoxItem>, t: u32)
    decreases |records|
  {
    records == [] ||
    (FindSafe(items, records[0], t) && DispatchSafe(AddSpec(items, records[0], t).items, records[1..], t))
  }

  /** One polling round: `add` each record in order and collect the messages sent. */
  function DispatchSpec(items: seq<BBoxItem>, records: seq<BBoxItem>, t: u32): Dispatched
    requires DispatchSafe(items, records, t)
    decreases |records|
  {
    if records == [] then Dispatched(items, [])
    else
      var o := AddSpec(items, records[0], t);
      var rest := DispatchSpec(o.items, records[1..], t);
      var here := match MessageFor(o.result) case Some(m) => [m] case None => [];
      Dispatched(rest.items, here + rest.sent)
  }

  function CountInitScans(msgs: seq<ChannelMsg>): nat
    decreases |msgs|
  {
    if msgs == [] then 0 else (if msgs[0].InitScan? then 1 else 0) + CountInitScans(msgs[1..])
  }

  /**
    A round sends at most one message per record, and exactly one InitScan
    for each box it starts tracking.
  */
  lemma {:induction false} DispatchCounts(items: seq<BBoxItem>, records: seq<BBoxItem>, t: u32)
    requires DispatchSafe(items, records, t)
    ensures var d := DispatchSpec(items, records, t);
      |d.sent| <= |records| && |items| <= |d.items| &&
      CountInitScans(d.sent) == |d.items| - |items|
    ensures forall j :: 0 <= j < |items| ==>
      DispatchSpec(items, records, t).items[j].(text := items[j].text) == items[j]
    decreases |records|
  {
    if records != [] {
      var o := AddSpec(items, records[0], t);
      AddNeverRemoves(items, records[0], t);
      DispatchCounts(o.items, records[1..], t);
      var rest := DispatchSpec(o.items, records[1..], t);
      var here := match MessageFor(o.result) case Some(m) => [m] case None => [];
      if here == [] {
        assert here + rest.sent == rest.sent;
      } else {
        assert (here + rest.sent)[0] == here[0];
        assert (here + rest.sent)[1..] == rest.sent;
      }
    }
  }

  /** With a positive threshold, a round that starts with at most one box ends with at most one. */
  lemma {:induction false} DispatchKeepsAtMostOne(items: seq<BBoxItem>, records: seq<BBoxItem>, t: u32)
    requires 0 < t && |items| <= 1 && DispatchSafe(items, records, t)
    ensures |DispatchSpec(items, records, t).items| <= 1
    decreases |records|
  {
    if records != [] {
      AddKeepsAtMostOne(items, records[0], t);
      DispatchKeepsAtMostOne(AddSpec(items, records[0], t).items, records[1..], t);
    }
  }

  /** The first record of a round: its `add`, its message, then the rest of the round. */
  lemma DispatchUnfold(items: seq<BBoxItem>, records: seq<BBoxItem>, t: u32)
    requires records != [] && DispatchSafe(items, records, t)
    ensures FindSafe(items, records[0], t)
    ensures DispatchSafe(AddSpec(items, records[0], t).items, records[1..], t)
    ensures DispatchSpec(items, records, t).items == DispatchSpec(AddSpec(items, records[0], t).items, records[1..], t).items
    ensures DispatchSpec(items, records, t).sent
      == (match MessageFor(AddSpec(items, records[0], t).result) case Some(m) => [m] case None => [])
         + DispatchSpec(AddSpec(items, records[0], t).items, records[1..], t).sent
  {
  }

  /** The loop of `main` after one more record: what is still to come plus what was sent is the round's outcome. */
  lemma DispatchAdvance(items: seq<BBoxItem>, records: seq<BBoxItem>, t: u32, sent: seq<ChannelMsg>, final: Dispatched)
    requires records != [] && DispatchSafe(items, records, t)
    requires DispatchSpec(items, records, t).items == final.items
    requires sent + DispatchSpec(items, records, t).sent == final.sent
    ensures FindSafe(items, records[0], t)
    ensures DispatchSafe(AddSpec(items, records[0], t).items, records[1..], t)
    ensures DispatchSpec(AddSpec(items, records[0], t).items, records[1..], t).items == final.items
    ensures MessageFor(AddSpec(items, records[0], t).result).None? ==>
      sent + DispatchSpec(AddSpec(items, records[0], t).items, records[1..], t).sent == final.sent
    ensures MessageFor(AddSpec(items, records[0], t).result).Some? ==>
      sent + [MessageFor(AddSpec(items, records[0], t).result).value]
      + DispatchSpec(AddSpec(items, records[0], t).items, records[1..], t).sent == final.sent
  {
    DispatchUnfold(items, records, t);
    var o := AddSpec(items, records[0], t);
    var rest := DispatchSpec(o.items, records[1..], t);
    match MessageFor(o.result)
    case None =>
      assert [] + rest.sent == rest.sent;
    case Some(m) =>
      assert sent + ([m] + rest.sent) == sent + [m] + rest.sent;
  }

  /** One record of a round: its `add`, its message, then the rest of the round. */
  lemma DispatchStep(items: seq<BBoxItem>, r: BBoxItem, rest: seq<BBoxItem>, t: u32)
    requires FindSafe(items, r, t)
    requires DispatchSafe(AddSpec(items, r, t).items, rest, t)
    ensures DispatchSafe(items, [r] + rest, t)
    ensures DispatchSpec(items, [r] + rest, t).items == DispatchSpec(AddSpec(items, r, t).items, rest, t).items
    ensures DispatchSpec(items, [r] + rest, t).sent
      == (match MessageFor(AddSpec(items, r, t).result) case Some(m) => [m] case None => [])
         + DispatchSpec(AddSpec(items, r, t).items, rest, t).sent
  {
    assert ([r] + rest)[0] == r && ([r] + rest)[1..] == rest;
  }

  /**
    Four observations of one polling round, with their ids as `ToBBoxItem` forms them: A starts a
    track; B and C lie within 5 units of A on every coordinate, C with new text; D lies 30 or more
    units away from A on every coordinate, with A's original text.
  */
  const EXAMPLE_A := BBoxItem("10501050", 10, 10, 50, 50, "7")
  const EXAMPLE_B := BBoxItem("12491153", 12, 11, 49, 53, "7")
  const EXAMPLE_C := BBoxItem("12491153", 12, 11, 49, 53, "9")
  const EXAMPLE_D := BBoxItem("40904090", 40, 40, 90, 90, "7")

  /** The example's ids are the ones the conversion from OCR words gives. */
  lemma ExampleIds()
    ensures ToBBoxItem(OcrWord(10, 10, 50, 50, "7")) == EXAMPLE_A
    ensures ToBBoxItem(OcrWord(12, 11, 49, 53, "7")) == EXAMPLE_B
    ensures ToBBoxItem(OcrWord(12, 11, 49, 53, "9")) == EXAMPLE_C
    ensures ToBBoxItem(OcrWord(40, 40, 90, 90, "7")) == EXAMPLE_D
  {
  }

  lemma ExampleStepA()
    ensures FindSafe([], EXAMPLE_A, THRESHOLD)
    ensures AddSpec([], EXAMPLE_A, THRESHOLD) == AddOutcome([EXAMPLE_A], Some((false, EXAMPLE_A)))
  {
  }

  lemma ExampleStepB()
    ensures FindSafe([EXAMPLE_A], EXAMPLE_B, THRESHOLD)
    ensures AddSpec([EXAMPLE_A], EXAMPLE_B, THRESHOLD) == AddOutcome([EXAMPLE_A], None)
  {
    assert MatchSafe(EXAMPLE_A, EXAMPLE_B, THRESHOLD) && Matches(EXAMPLE_A, EXAMPLE_B, THRESHOLD);
  }

  lemma ExampleStepC()
    ensures FindSafe([EXAMPLE_A], EXAMPLE_C, THRESHOLD)
    ensures AddSpec([EXAMPLE_A], EXAMPLE_C, THRESHOLD)
      == AddOutcome([EXAMPLE_A.(text := "9")], Some((true, EXAMPLE_A.(text := "9"))))
  {
    assert MatchSafe(EXAMPLE_A, EXAMPLE_C, THRESHOLD) && Matches(EXAMPLE_A, EXAMPLE_C, THRESHOLD);
  }

  lemma ExampleStepD()
    ensures FindSafe([EXAMPLE_A.(text := "9")], EXAMPLE_D, THRESHOLD)
    ensures AddSpec([EXAMPLE_A.(text := "9")], EXAMPLE_D, THRESHOLD)
      == AddOutcome([EXAMPLE_A], Some((true, EXAMPLE_A)))
  {
    var a9 := EXAMPLE_A.(text := "9");
    assert MatchSafe(a9, EXAMPLE_D, THRESHOLD) && Matches(a9, EXAMPLE_D, THRESHOLD);
    assert a9.(text := "7") == EXAMPLE_A;
  }

  /**
    One round over A, B, C and D through the code as written. B leaves A as it
    is and C changes A's text, as one would expect of nearby boxes. A reader
    would expect the distant D to open a second identity, but D matches A too
    and rewrites A's text back: the tracker still holds the single box A.
  */
  lemma DistantBoxExample()
    ensures DispatchSafe([], [EXAMPLE_A, EXAMPLE_B, EXAMPLE_C, EXAMPLE_D], THRESHOLD)
    ensures DispatchSpec([], [EXAMPLE_A, EXAMPLE_B, EXAMPLE_C, EXAMPLE_D], THRESHOLD)
      == Dispatched([EXAMPLE_A], [InitScan(EXAMPLE_A), ReScan(EXAMPLE_A.(text := "9")), ReScan(EXAMPLE_A)])
  {
    var a9 := EXAMPLE_A.(text := "9");
    ExampleStepA();
    ExampleStepB();
    ExampleStepC();
    ExampleStepD();
    assert DispatchSafe([EXAMPLE_A], [], THRESHOLD);
    DispatchStep([a9], EXAMPLE_D, [], THRESHOLD);
    assert [EXAMPLE_D] + [] == [EXAMPLE_D];
    DispatchStep([EXAMPLE_A], EXAMPLE_C, [EXAMPLE_D], THRESHOLD);
    assert [EXAMPLE_C] + [EXAMPLE_D] == [EXAMPLE_C, EXAMPLE_D];
    DispatchStep([EXAMPLE_A], EXAMPLE_B, [EXAMPLE_C, EXAMPLE_D], THRESHOLD);
    assert [EXAMPLE_B] + [EXAMPLE_C, EXAMPLE_D] == [EXAMPLE_B, EXAMPLE_C, EXAMPLE_D];
    DispatchStep([], EXAMPLE_A, [EXAMPLE_B, EXAMPLE_C, EXAMPLE_D], THRESHOLD);
    assert [EXAMPLE_A] + [EXAMPLE_B, EXAMPLE_C, EXAMPLE_D] == [EXAMPLE_A, EXAMPLE_B, EXAMPLE_C, EXAMPLE_D];
  }

  /** The polling round of `main`: `add` each record and send the message its result calls for. */
  method DispatchRecords(bbset: BBSet, records: seq<BBoxItem>) returns (sent: seq<ChannelMsg>)
    requires DispatchSafe(bbset.items, records, bbset.threshold)
    modifies bbset
    ensures Dispatched(bbset.items, sent) == DispatchSpec(old(bbset.items), records, bbset.threshold)
  {
    ghost var final := DispatchSpec(bbset.items, records, bbset.threshold);
    sent := [];
    var i := 0;
    while i < |records|
      invariant 0 <= i <= |records|
      invariant DispatchSafe(bbset.items, records[i..], bbset.threshold)
      invariant DispatchSpec(bbset.items, records[i..], bbset.threshold).items == final.items
      invariant sent + DispatchSpec(bbset.items, records[i..], bbset.threshold).sent == final.sent
    {
      DispatchAdvance(bbset.items, records[i..], bbset.threshold, sent, final);
      assert records[i..][0] == records[i] && records[i..][1..] == records[i + 1..];
      var res := bbset.Add(records[i]);
      var msg := MessageFor(res);
      if msg.Some? {
        sent := sent + [msg.value];
      }
      i := i + 1;
    }
  }

  /**
    The state of `handle_scanner`: one scanner per box id, all sharing the
    process handle, and the busy flag the polling loop reads.
  */
  class ScanWorker {
    const process: ProcessHandle
    var scanners: map<string, DefaultScanner>
    var running: bool

    /** Every scanner uses the worker's process handle, and distinct ids own distinct scanners. */
    ghost predicate Valid()
      reads this, scanners.Values
    {
      && (forall id :: id in scanners ==> scanners[id].process == process)
      && (forall id1, id2 :: id1 in scanners && id2 in scanners && id1 != id2 ==> scanners[id1] != scanners[id2])
    }

    /** Every candidate of every scanner lies in a readable, writable, anonymous region of the process. */
    ghost predicate CandidatesEligible()
      reads this, scanners.Values
    {
      forall s :: s in scanners.Values ==> AllEligible(process.procMaps, s.candidates)
    }

    constructor (process: ProcessHandle)
      ensures this.process == process && scanners == map[] && !running
      ensures Valid() && CandidatesEligible()
    {
      this.process := process;
      scanners := map[];
      running := false;
    }

    /** `entry(id).or_insert_with(|| DefaultScanner::new(process.clone()))` */
    method ScannerFor(id: string) returns (scanner: DefaultScanner)
      requires Valid()
      modifies this
      ensures Valid() && running == old(running)
      ensures scanners == old(scanners)[id := scanner]
      ensures id in old(scanners) ==> scanner == old(scanners[id])
      ensures id !in old(scanners) ==> fresh(scanner) && scanner.candidates == []
      ensures scanner.process == process
    {
      if id in scanners {
        scanner := scanners[id];
      } else {
        scanner := new DefaultScanner(process);
        scanners := scanners[id := scanner];
      }
    }

    /**
      One message of `handle_scanner`: find the scanner of the box id (creating
      an empty one if there is none), parse the box text (a text that does not
      parse panics, so it is a precondition) and run Initialize for InitScan or
      Prune for ReScan, with the busy flag set for the duration.
    */
    method Handle<V(==)>(msg: ChannelMsg, parse: string -> Option<V>, img: Image<V>)
      requires Valid()
      requires parse(msg.item.text).Some?
      modifies this, scanners.Values
      ensures Valid() && !running
      ensures msg.item.id in scanners && scanners == old(scanners)[msg.item.id := scanners[msg.item.id]]
      ensures forall id :: id in old(scanners) ==> scanners[id] == old(scanners[id])
      ensures forall s :: s in scanners.Values ==> s in old(scanners.Values) || fresh(s)
      ensures forall id :: id in old(scanners) && id != msg.item.id ==>
        scanners[id].candidates == old(scanners[id].candidates)
      ensures msg.InitScan? ==>
        multiset(scanners[msg.item.id].candidates)
        == multiset(RegionsScan(process.procMaps, Eligible, img, parse(msg.item.text).value, Equal))
      ensures msg.ReScan? ==>
        scanners[msg.item.id].candidates
        == Retain(if msg.item.id in old(scanners) then old(scanners[msg.item.id].candidates) else [],
                  img, parse(msg.item.text).value, Equal)
      ensures old(CandidatesEligible()) ==> CandidatesEligible()
    {
      running := true;
      var scanner := ScannerFor(msg.item.id);
      var value := parse(msg.item.text).value;
      var scanType := if msg.InitScan? then Initialize else Prune;
      var _ := scanner.FindValues(value, Equal, scanType, img);
      running := false;
    }

    /**
      `handle_scanner`: the messages in the order they were queued, one engine
      operation each, each against the memory as it is at that moment.
    */
    method Run<V(==)>(msgs: seq<ChannelMsg>, parse: string -> Option<V>, imgs: seq<Image<V>>)
      requires Valid() && CandidatesEligible()
      requires |imgs| == |msgs|
      requires forall i :: 0 <= i < |msgs| ==> parse(msgs[i].item.text).Some?
      modifies this, scanners.Values
      ensures Valid() && CandidatesEligible()
      ensures msgs != [] ==> !running
      ensures old(scanners.Keys) <= scanners.Keys
      ensures forall i :: 0 <= i < |msgs| ==> msgs[i].item.id in scanners
      ensures forall id :: id in scanners ==> id in old(scanners) || exists i :: 0 <= i < |msgs| && msgs[i].item.id == id
      ensures forall id :: id in old(scanners) ==> scanners[id] == old(scanners[id])
    {
      var i := 0;
      while i < |msgs|
        invariant 0 <= i <= |msgs|
        invariant Valid() && CandidatesEligible()
        invariant i > 0 ==> !running
        invariant old(scanners.Keys) <= scanners.Keys
        invariant forall j :: 0 <= j < i ==> msgs[j].item.id in scanners
        invariant forall id :: id in scanners ==> id in old(scanners) || exists j :: 0 <= j < i && msgs[j].item.id == id
        invariant forall id :: id in old(scanners) ==> scanners[id] == old(scanners[id])
        invariant forall s :: s in scanners.Values ==> s in old(scanners.Values) || fresh(s)
      {
        Handle(msgs[i], parse, imgs[i]);
        i := i + 1;
      }
    }
  }
}
