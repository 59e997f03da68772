/**
  Word selection in the OCR service (crates/ocr).

  Each line of the hOCR text is matched against the word pattern
  `bbox X1 Y1 X2 Y2; x_wconf C ... >TEXT</span>`; the pattern engine is not
  modelled and is given as a function from a line to its successive matches,
  each the six captured groups. Of the first five matches the first whose
  confidence is at least 30 becomes the line's word.
*/
module Ocr {
  import opened Wrappers
  import opened Decimal

  /** `ocr::OCRWord`; the numeric fields are `u32`. */
  datatype OcrWord = OcrWord(x1: u32, y1: u32, x2: u32, y2: u32, confidence: u32, text: string)

  /** The six groups of one match, in pattern order. */
  datatype Captures = Captures(x1: string, y1: string, x2: string, y2: string, confidence: string, text: string)

  /** `take(5)` */
  const MAX_MATCHES: nat := 5
  /** Matches below this confidence are skipped. */
  const MIN_CONFIDENCE: nat := 30

  /** The match's confidence parses and reaches the minimum. */
  predicate Confident(c: Captures) {
    ParsesAsU32(c.confidence) && Value(c.confidence) >= MIN_CONFIDENCE
  }

  /** Every group of the match that `parse_box` turns into a number parses as a `u32`. */
  predicate Parsed(c: Captures) {
    ParsesAsU32(c.x1) && ParsesAsU32(c.y1) && ParsesAsU32(c.x2) && ParsesAsU32(c.y2)
    && ParsesAsU32(c.confidence)
  }

  /** The word built from a match: groups to x1, y1, x2, y2, confidence, and the text verbatim. */
  function WordOf(c: Captures): OcrWord
    requires Parsed(c)
  {
    OcrWord(Value(c.x1), Value(c.y1), Value(c.x2), Value(c.y2), Value(c.confidence), c.text)
  }

  /**
    Every `parse().unwrap()` that runs on these matches succeeds: each
    confidence looked at parses as a `u32`, and so do the coordinates of the
    match that is returned. The pattern's `\d` also matches non-ASCII digits,
    which `parse` rejects, so this is a real demand on the input.
  */
  predicate SelectSafe(caps: seq<Captures>, budget: nat)
    decreases budget
  {
    budget == 0 || caps == [] ||
    (ParsesAsU32(caps[0].confidence) &&
     if Value(caps[0].confidence) < MIN_CONFIDENCE then SelectSafe(caps[1..], budget - 1)
     else ParsesAsU32(caps[0].x1) && ParsesAsU32(caps[0].y1)
          && ParsesAsU32(caps[0].x2) && ParsesAsU32(caps[0].y2))
  }

  /**
    The loop of `parse_box` over at most `budget` matches: skip the matches
    below the minimum confidence and build the word from the first other one;
    an error when there is none.
  */
  function Select(caps: seq<Captures>, budget: nat): (r: Result<OcrWord>)
    requires SelectSafe(caps, budget)
    ensures r.Ok? ==> r.value.confidence >= MIN_CONFIDENCE
    decreases budget
  {
    if budget == 0 || caps == [] then Err("no")
    else if Value(caps[0].confidence) < MIN_CONFIDENCE then Select(caps[1..], budget - 1)
    else Ok(WordOf(caps[0]))
  }

  /**
    The result is an error exactly when none of the first `budget` matches is
    confident, and otherwise the word of the first confident one.
  */
  lemma {:induction false} SelectFirstConfident(caps: seq<Captures>, budget: nat)
    requires SelectSafe(caps, budget)
    ensures Select(caps, budget).Err? <==> forall j :: 0 <= j < |caps| && j < budget ==> !Confident(caps[j])
    ensures forall i :: 0 <= i < |caps| && i < budget && Confident(caps[i])
                        && (forall j :: 0 <= j < i ==> !Confident(caps[j]))
                        ==> Parsed(caps[i]) && Select(caps, budget) == Ok(WordOf(caps[i]))
    decreases budget
  {
    if budget > 0 && caps != [] && Value(caps[0].confidence) < MIN_CONFIDENCE {
      var tail := caps[1..];
      SelectFirstConfident(tail, budget - 1);
      assert forall j :: 0 < j < |caps| ==> caps[j] == tail[j - 1];
      forall i | 0 <= i < |caps| && i < budget && Confident(caps[i]) && (forall j :: 0 <= j < i ==> !Confident(caps[j]))
        ensures Parsed(caps[i]) && Select(caps, budget) == Ok(WordOf(caps[i]))
      {
        assert i > 0;
        assert forall j :: 0 <= j < i - 1 ==> !Confident(tail[j]);
      }
    }
  }

  /** `parse_box`: the line's word, taken from its first five matches. */
  function ParseBox(line: string, matches: string -> seq<Captures>): Result<OcrWord>
    requires SelectSafe(matches(line), MAX_MATCHES)
  {
    Select(matches(line), MAX_MATCHES)
  }

  /** `parse_box` runs without panic on every line. */
  predicate LinesSafe(lines: seq<string>, matches: string -> seq<Captures>) {
    forall i :: 0 <= i < |lines| ==> SelectSafe(matches(lines[i]), MAX_MATCHES)
  }

  /** `lines().flat_map(parse_box).collect()`: the words of the lines that have one, in line order. */
  function Words(lines: seq<string>, matches: string -> seq<Captures>): (r: seq<OcrWord>)
    requires LinesSafe(lines, matches)
    ensures |r| <= |lines|
    ensures forall w :: w in r ==> w.confidence >= MIN_CONFIDENCE
    decreases |lines|
  {
    if lines == [] then []
    else
      var init := lines[..|lines| - 1];
      assert forall i :: 0 <= i < |init| ==> init[i] == lines[i];
      var rest := Words(init, matches);
      match ParseBox(lines[|lines| - 1], matches)
      case Ok(w) => rest + [w]
      case Err(_) => rest
  }

  /** Words come in line order: the words of two blocks of lines are those of the first, then of the second. */
  lemma {:induction false} WordsAppend(l1: seq<string>, l2: seq<string>, matches: string -> seq<Captures>)
    requires LinesSafe(l1, matches) && LinesSafe(l2, matches)
    ensures LinesSafe(l1 + l2, matches)
    ensures Words(l1 + l2, matches) == Words(l1, matches) + Words(l2, matches)
    decreases |l2|
  {
    assert forall i :: 0 <= i < |l1 + l2| ==> (l1 + l2)[i] == if i < |l1| then l1[i] else l2[i - |l1|];
    if l2 == [] {
      assert l1 + l2 == l1;
    } else {
      var n := |l2| - 1;
      WordsAppend(l1, l2[..n], matches);
      assert (l1 + l2)[..|l1 + l2| - 1] == l1 + l2[..n];
    }
  }

  /** The last line's word, if it has one, comes after the words of the lines before it. */
  lemma WordsLast(lines: seq<string>, matches: string -> seq<Captures>)
    requires lines != [] && LinesSafe(lines, matches)
    ensures LinesSafe(lines[..|lines| - 1], matches)
    ensures Words(lines, matches)
      == Words(lines[..|lines| - 1], matches)
         + (if ParseBox(lines[|lines| - 1], matches).Ok? then [ParseBox(lines[|lines| - 1], matches).value] else [])
  {
    assert forall i :: 0 <= i < |lines| - 1 ==> lines[..|lines| - 1][i] == lines[i];
  }

  /** Every word in the output is the word of some line. */
  lemma {:induction false} WordsFromLines(lines: seq<string>, matches: string -> seq<Captures>, w: OcrWord)
    requires LinesSafe(lines, matches) && w in Words(lines, matches)
    ensures exists i :: 0 <= i < |lines| && ParseBox(lines[i], matches) == Ok(w)
    decreases |lines|
  {
    var n := |lines| - 1;
    var init := lines[..n];
    WordsLast(lines, matches);
    if w in Words(init, matches) {
      WordsFromLines(init, matches, w);
      var i :| 0 <= i < |init| && ParseBox(init[i], matches) == Ok(w);
      assert lines[i] == init[i];
    } else {
      assert ParseBox(lines[n], matches) == Ok(w);
    }
  }

  /** The word of every line that has one is in the output. */
  lemma {:induction false} LineWordKept(lines: seq<string>, matches: string -> seq<Captures>, i: nat)
    requires LinesSafe(lines, matches) && i < |lines| && ParseBox(lines[i], matches).Ok?
    ensures ParseBox(lines[i], matches).value in Words(lines, matches)
    decreases |lines|
  {
    var n := |lines| - 1;
    var init := lines[..n];
    WordsLast(lines, matches);
    if i < n {
      assert lines[i] == init[i];
      LineWordKept(init, matches, i);
    }
  }

  /** A word is in the output exactly when some line's `parse_box` returned it; failing lines are dropped. */
  lemma WordsMembership(lines: seq<string>, matches: string -> seq<Captures>, w: OcrWord)
    requires LinesSafe(lines, matches)
    ensures w in Words(lines, matches) <==> exists i :: 0 <= i < |lines| && ParseBox(lines[i], matches) == Ok(w)
  {
    if w in Words(lines, matches) {
      WordsFromLines(lines, matches, w);
    } else {
      forall i | 0 <= i < |lines|
        ensures ParseBox(lines[i], matches) != Ok(w)
      {
        if ParseBox(lines[i], matches).Ok? {
          LineWordKept(lines, matches, i);
        }
      }
    }
  }

  /** A line with no match at all yields no word. */
  lemma NoMatchNoWord(line: string, matches: string -> seq<Captures>)
    requires matches(line) == []
    ensures ParseBox(line, matches).Err?
  {
  }

  /** A sixth match is never looked at, however confident it is. */
  lemma OnlyFirstFiveConsidered(line: string, matches: string -> seq<Captures>)
    requires SelectSafe(matches(line), MAX_MATCHES)
    requires |matches(line)| > MAX_MATCHES
    requires forall j :: 0 <= j < MAX_MATCHES ==> !Confident(matches(line)[j])
    ensures ParseBox(line, matches).Err?
  {
  }
}
