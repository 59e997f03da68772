# skanner, modelled in Dafny

skanner is a process-memory scanner written in Rust. This project models four
parts of it. Each part is proved against a specification stated as Dafny
functions.

- **The scanning engine** (`crates/core`, the `vulture` crate), in `vulture.dfy` and `memory.dfy`:
  - A `ProcessHandle` captures a pid and the process's memory map once.
  - A `DefaultScanner` owns the candidate addresses of one value.
  - `find_values` with `Initialize` rebuilds the candidates. It reads every byte offset of every readable, writable, anonymous region and keeps each address whose read succeeds and satisfies the caller's condition.
  - `find_values` with `Prune` keeps, in order, the old candidates that still satisfy the condition. A failed read drops the address.
  - `find_pointers` scans the same regions for a given address value.
  - Process memory is a snapshot `Image<T> = nat -> Option<T>` passed to each call. `None` stands for a failed `read_mem`.
- **The game tracker** (`crates/game-poc`), in `tracker.dfy`:
  - OCR words become bounding boxes. The id is the decimal forms of x1, x2, y1, y2 written together.
  - `BBSet::add` either matches a box against the tracked ones with `within_bound`, or starts tracking it.
  - The polling round sends an `InitScan` message for each new box and a `ReScan` message for each changed box.
  - `handle_scanner` keeps one scanner per box id. It runs Initialize or Prune for each message and holds a busy flag while it does.
- **Word selection in the OCR service** (`crates/ocr`), in `hocr.dfy`:
  - `parse_box` takes the first of a line's first five pattern matches whose confidence is at least 30.
  - `lines().flat_map(parse_box)` collects the words of the lines that have one, in line order.
- **The standalone scanner** (`src/main.rs`), in `skanner.dfy`: it prints every address of a readable, executable region whose `u32` equals the target, and the first failed read ends the run.

`decimal.dfy` models decimal text: `format!("{}", n)` and `parse::<u32>()`. `wrappers.dfy` holds `Option` and `Result`.

The model follows the code as written. The main case is `within_bound`. The code tests `(v1 < v2 + thresh) || (v1 > v2 - thresh)`: an OR of two one-sided comparisons, not "v1 is within thresh of v2".

The model covers builds with overflow checks on (debug builds), where an overflow of `u32` arithmetic panics. Each panic is a precondition the caller must meet:
- in `within_bound`, `v2 + thresh` and `v2 - thresh`, following `&&` short-circuiting;
- in `parse_box`, the `parse().unwrap()` calls.

In such a build:
- When `within_bound` does not panic, it holds for every `v1` once `thresh > 0`. With `thresh == 0` it means only `v1 != v2`.
- So with the threshold of 5 that `BBSet::new` sets, every box matches the first tracked box, and the tracker never holds more than one box.
- `GamePoc.DistantBoxExample` runs four observations through one round. A starts a track, and B and C lie within 5 units of it. D lies 30 or more units away, so a reader would expect it to open a second identity. Instead D matches A and rewrites A's text.

Release builds behave differently; `GamePoc.WithinBoundWrapping` and `GamePoc.WrappingCanMiss` show how.

## Model

| member | source | states |
|---|---|---|
| Memory.OffsetScan | crates/core/src/lib.rs:96-101 | defines the offset loop of one region: the addresses start, start + 1, ... whose read succeeds and satisfies the condition, ascending |
| Memory.RegionsScan | crates/core/src/lib.rs:91-103 | defines the scan over the memory map: the offset loop of each region the filter accepts, in map order |
| Memory.OffsetScanMembership | crates/core/src/lib.rs:96-101 | an address is reported by the offset loop of a region exactly when it lies in the region's range and the read there succeeds and satisfies the condition |
| Memory.OffsetScanAscending | crates/core/src/lib.rs:96-102 | the offset loop reports addresses strictly ascending and all inside the region |
| Memory.RegionsScanMembership | crates/core/src/lib.rs:91-103 | an address is reported by a scan over the memory map exactly when some selected region contains it and the read there hits |
| Memory.RegionsScanAppend | crates/core/src/lib.rs:122-135 | scanning a map split in two gives the results of the first part followed by those of the second (results in map order) |
| Decimal.ParsesAsU32 | crates/ocr/src/main.rs:68 | `parse::<u32>()` succeeds: a non-empty run of ASCII digits whose value is below 2^32 |
| Decimal.Show | crates/game-poc/src/main.rs:156 | `format!` of a number is a non-empty run of ASCII digits without a leading zero, one digit long exactly for numbers below 10 |
| Decimal.ShowValue | crates/game-poc/src/main.rs:156 | parsing the printed decimal form gives the number back |
| Decimal.ShowInjective | crates/game-poc/src/main.rs:156 | two numbers print the same exactly when they are equal |
| Vulture.Attach | crates/core/src/lib.rs:14-22 | `ProcessHandle::new`: the handle holds the pid and the memory map captured at that moment |
| Vulture.ProcessHandle.GetPid | crates/core/src/lib.rs:24-26 | `get_pid` returns the stored pid |
| Vulture.ProcessHandle.GetProcMaps | crates/core/src/lib.rs:28-30 | `get_proc_maps` returns the stored memory map |
| Vulture.Eligible | crates/core/src/lib.rs:94 | the region filter of Initialize and `find_pointers`: readable, writable and with no file name |
| Vulture.Retain | crates/core/src/lib.rs:108-112 | defines `retain` with the Prune test: the candidates, in order, whose read succeeds and satisfies the condition |
| Vulture.AttachGetters | crates/core/src/lib.rs:14-30 | `get_pid` and `get_proc_maps` return the pid and the memory map captured by `ProcessHandle::new` |
| Vulture.RetainMembership | crates/core/src/lib.rs:107-113 | after Prune an address is a candidate exactly when it was one and its read succeeds and satisfies the condition; an unreadable address is dropped |
| Vulture.RetainIsSubsequence | crates/core/src/lib.rs:107-113 | Prune's result is a subsequence of the old candidates (nothing added, order kept) and no longer than them |
| Vulture.RetainAllHit | crates/core/src/lib.rs:107-113 | when every candidate still hits, Prune leaves the candidates unchanged |
| Vulture.RetainIdempotent | crates/core/src/lib.rs:107-113 | a second Prune with the same value on the same memory changes nothing |
| Vulture.PruneAfterInitialize | crates/core/src/lib.rs:85-113 | on unchanged memory, Prune right after Initialize keeps every candidate, whatever order Initialize collected them in |
| Vulture.ScanReportsOnlyEligible | crates/core/src/lib.rs:94 | Initialize reports an address exactly when a readable, writable region with no file name holds it and the read there hits |
| Vulture.InitializeEligible | crates/core/src/lib.rs:85-106 | every candidate Initialize collects lies in an eligible region |
| Vulture.PruneEligible | crates/core/src/lib.rs:107-113 | Prune keeps candidates that lie in eligible regions in eligible regions |
| Vulture.DefaultScanner.constructor | crates/core/src/lib.rs:69-74 | a new scanner has the given process handle and no candidates |
| Vulture.DefaultScanner.CollectMatches | crates/core/src/lib.rs:91-103 | the nested loops over eligible regions and their offsets return exactly the region scan, in map order then ascending |
| Vulture.DefaultScanner.FindValues | crates/core/src/lib.rs:78-117 | returns `Ok` of the new candidates; Initialize leaves the same multiset of addresses as the region scan; Prune leaves exactly the retained old candidates; candidates in eligible regions stay so |
| Vulture.DefaultScanner.FindPointers | crates/core/src/lib.rs:119-138 | returns `Ok` of every address of an eligible region whose read equals the given address, in map order then ascending |
| GamePoc.ToBBoxItem | crates/game-poc/src/main.rs:153-164 | the box keeps the word's coordinates and text; its id is all ASCII digits, at least four long, and starts with the decimal form of x1 |
| GamePoc.IdCollision | crates/game-poc/src/main.rs:156 | two different words, x1 = 1, x2 = 23 against x1 = 12, x2 = 3, get the same id |
| GamePoc.WithinBound | crates/game-poc/src/main.rs:179-182 | when it does not panic, `within_bound` holds exactly when the threshold is positive or the two values differ |
| GamePoc.WithinBoundWrapping | crates/game-poc/src/main.rs:180-182 | `within_bound` with wrapping `u32` arithmetic, as in a release build, agrees with the checked version wherever that one does not panic |
| GamePoc.WrappingCanMiss | crates/game-poc/src/main.rs:181 | with wrapping arithmetic `within_bound(100, 2, 5)` is false, because `2 - 5` wraps to 4294967293; the checked build panics on it |
| GamePoc.BoundSafe | crates/game-poc/src/main.rs:180-182 | `within_bound` does not panic: `v2 + thresh` fits in a `u32`, and `v2 - thresh` does whenever the left test fails |
| GamePoc.MatchSafe | crates/game-poc/src/main.rs:185-190 | the `find` closure does not panic on one box: each `within_bound` call it reaches through `&&` is safe |
| GamePoc.Matches | crates/game-poc/src/main.rs:185-190 | the `find` closure: all four coordinates pass `within_bound` against the observation |
| GamePoc.FindSafe | crates/game-poc/src/main.rs:185-190 | `find` does not panic: the closure is safe on each box it tests, up to the first match |
| GamePoc.FirstMatch | crates/game-poc/src/main.rs:185-190 | `find` returns a tracked box that matches, and every box before it, or every box when there is none, does not match |
| GamePoc.FirstTrackedAlwaysMatches | crates/game-poc/src/main.rs:185-190 | with a positive threshold `find` always stops at the first tracked box |
| GamePoc.AddSpec | crates/game-poc/src/main.rs:184-201 | defines `add`: push an unmatched box and return it as new; change the first match's text and return it as changed; otherwise change nothing and return nothing |
| GamePoc.AddAppendsUnmatched | crates/game-poc/src/main.rs:197-199 | when no tracked box matches, the box is appended and returned as new |
| GamePoc.AddUpdatesFirstMatch | crates/game-poc/src/main.rs:191-194 | when the first match has other text, only its text changes and the tracked box, not the observation, is returned as changed |
| GamePoc.AddIgnoresUnchanged | crates/game-poc/src/main.rs:191-196 | when the first match has the same text, nothing changes and nothing is returned |
| GamePoc.AddNeverRemoves | crates/game-poc/src/main.rs:184-201 | `add` never removes or reorders boxes, grows the list by at most one, and changes at most the text of one box |
| GamePoc.AddKeepsAtMostOne | crates/game-poc/src/main.rs:184-201 | with a positive threshold a tracker holding at most one box still holds at most one after `add` |
| GamePoc.BBSet.constructor | crates/game-poc/src/main.rs:172-177 | a new tracker has threshold 5 and no boxes |
| GamePoc.BBSet.Add | crates/game-poc/src/main.rs:184-201 | the loop over tracked boxes leaves the boxes and returns the result that `add`'s specification gives |
| GamePoc.MessageFor | crates/game-poc/src/main.rs:42-50 | a message is sent exactly when `add` returns a box; it carries that box and is a `ReScan` exactly when the box was changed |
| GamePoc.DispatchSafe | crates/game-poc/src/main.rs:41-51 | no `add` of the round panics, each against the boxes the earlier ones left |
| GamePoc.DispatchSpec | crates/game-poc/src/main.rs:41-51 | defines a polling round: `add` each record in order and collect the message each result calls for |
| GamePoc.DispatchCounts | crates/game-poc/src/main.rs:41-51 | a round sends at most one message per record and one `InitScan` per box it starts tracking; every tracked box stays in its place with at most its text changed |
| GamePoc.DispatchKeepsAtMostOne | crates/game-poc/src/main.rs:41-51 | with a positive threshold a round that starts with at most one tracked box ends with at most one |
| GamePoc.DistantBoxExample | crates/game-poc/src/main.rs:41-51 | one round over boxes A, B, C, D at (10,10,50,50), (12,11,49,53), the same with new text, and (40,40,90,90) sends `InitScan(A)`, `ReScan` with the new text, and `ReScan(A)` back to the old text, and ends with A as the only box: the distant D opens no second identity |
| GamePoc.ExampleIds | crates/game-poc/src/main.rs:153-164 | the four example boxes are what the conversion gives for the OCR words at those coordinates, ids included |
| GamePoc.DispatchRecords | crates/game-poc/src/main.rs:41-51 | the records loop leaves the tracker and the sent messages that the round's specification gives |
| GamePoc.ScanWorker.constructor | crates/game-poc/src/main.rs:91 | the worker starts with no scanners and is not busy |
| GamePoc.ScanWorker.ScannerFor | crates/game-poc/src/main.rs:98-100 | `entry(id).or_insert_with` returns the id's existing scanner, or adds a fresh one with no candidates, and changes nothing else |
| GamePoc.ScanWorker.Handle | crates/game-poc/src/main.rs:93-125 | after one message the id has a scanner; `InitScan` leaves it the Initialize candidates; `ReScan` leaves the Prune of its old candidates (none for a new id); other ids' scanners and candidates are untouched; the busy flag is clear; scanners stay distinct and candidates stay in eligible regions |
| GamePoc.ScanWorker.Run | crates/game-poc/src/main.rs:86-128 | after the queued messages every message's id has a scanner, no other id gained one, old scanners are kept, and every candidate lies in an eligible region |
| Ocr.Confident | crates/ocr/src/main.rs:68-72 | a match is kept when its confidence parses and is at least 30 |
| Ocr.Parsed | crates/ocr/src/main.rs:73-80 | every numeric group of the returned match parses as a `u32` |
| Ocr.WordOf | crates/ocr/src/main.rs:73-80 | the word built from a match: the parsed coordinates and confidence, and the text as matched |
| Ocr.SelectSafe | crates/ocr/src/main.rs:65-80 | no `parse().unwrap()` of `parse_box` panics: each confidence looked at parses, and so do the coordinates of the returned match |
| Ocr.Select | crates/ocr/src/main.rs:65-82 | a word is returned only if its confidence is at least 30 |
| Ocr.ParseBox | crates/ocr/src/main.rs:63-83 | `parse_box`: the selection over the line's first five matches |
| Ocr.SelectFirstConfident | crates/ocr/src/main.rs:63-83 | `parse_box` fails exactly when none of the first five matches has confidence of at least 30, and otherwise returns the word of the first that does |
| Ocr.Words | crates/ocr/src/main.rs:46-51 | there are at most as many words as lines and every word has confidence of at least 30 |
| Ocr.WordsAppend | crates/ocr/src/main.rs:46-51 | the words of two blocks of lines are those of the first block followed by those of the second (line order) |
| Ocr.WordsFromLines | crates/ocr/src/main.rs:46-51 | every collected word is the result of `parse_box` on some line |
| Ocr.LineWordKept | crates/ocr/src/main.rs:46-51 | the word of every line for which `parse_box` succeeds is collected |
| Ocr.WordsMembership | crates/ocr/src/main.rs:46-51 | a word is collected exactly when `parse_box` returned it for some line; failing lines are dropped |
| Ocr.NoMatchNoWord | crates/ocr/src/main.rs:82 | a line with no match gives an error |
| Ocr.OnlyFirstFiveConsidered | crates/ocr/src/main.rs:66 | a line whose first five matches are all below 30 gives an error, however confident later matches are |
| Skanner.OffsetRun | src/main.rs:21-28 | defines the inner loop over one region: print each matching address, and stop at the first read that fails |
| Skanner.MainRun | src/main.rs:16-29 | defines `main`'s loop over readable, executable regions in map order, stopping the whole run at the first failed read |
| Skanner.OffsetRunPrefix | src/main.rs:21-28 | within a region the printed addresses are a prefix of the matching ones, all of them when no read fails, and a read fails exactly when some address of the range is unreadable |
| Skanner.MainRunPrefix | src/main.rs:16-29 | the printed addresses are a prefix of the matching addresses of the readable, executable regions in map order, and all of them when the run succeeds |
| Skanner.MainRunFails | src/main.rs:16-29 | the run fails exactly when some address of a readable, executable region is unreadable |
| Skanner.SuccessfulRunPrintsAllMatches | src/main.rs:16-30 | a run that succeeds prints an address exactly when a readable, executable region holds it and its `u32` equals the target |
| Skanner.FailedRunStops | src/main.rs:24 | once a region's scan fails, later regions change nothing |
| Skanner.FailedOffsetRunStops | src/main.rs:24 | once a read fails inside a region, later offsets change nothing |
| Skanner.ScanRegion | src/main.rs:17-28 | the inner loop prints and fails as the region's run specification says |
| Skanner.ScanProcess | src/main.rs:12-31 | `main` prints and returns the error or `Ok` as the whole run's specification says |

## Left out

- GamePoc.WithinBound: models builds with overflow checks, where an overflow panics (a precondition). In a release build `v2 - thresh` wraps and `within_bound` can report no match, for example `within_bound(100, 2, 5)`, so a second box is pushed. `GamePoc.WithinBoundWrapping` and `GamePoc.WrappingCanMiss` show this for one call; `BBSet::add` and the round are modelled only for the checked build.
- Operating-system access is not modelled: attaching, reading the memory map, `try_into_process_handle().unwrap()` and its panics. The memory map is a value given to `Attach`, and reads come from a memory image passed to each call.
- `ProcessHandle::write_mem` is not modelled: nothing in the modelled code calls it.
- Vulture.DefaultScanner.FindValues: Initialize promises the multiset of addresses, not their order. The source collects them from parallel workers through a channel, so the order is not fixed.
- The `find_values` error path is not modelled. Nothing in the modelled code returns `Err`, so the model always returns `Ok`.
- Addresses are unbounded naturals. An overflow of `start + offset` on `usize` is not modelled.
- Reads are stride-one, overlapping and typed, as in the source. How bytes make up a value is hidden in the memory image.
- Threads and concurrency are not modelled: the spawned worker, the `mpsc` channel, the `Arc<AtomicBool>`, the 5-second sleep and the polling loop's busy check. The round and the worker are sequential steps, and a message is handled against the memory image of its moment.
- GamePoc.ScanWorker.Handle: sets and clears the busy flag, but the flag being set while the scan runs is not observable in a sequential model.
- GamePoc.ScanWorker.Run: states which ids have scanners and that candidates stay eligible. The content of each scanner's candidates is stated one message at a time by Handle and is not restated over the whole queue.
- Values are not `f64`. The box text is parsed by a function given as a parameter, into a value type with equality. A text that does not parse is a precondition, since `unwrap` panics. Floating-point equality, including NaN, is not modelled.
- `get_screen` and `get_ocr_records` are not modelled: the HTTP requests, JSON (de)serialization and environment variables. A round is given its records.
- A failed `send` (a closed channel) is not modelled.
- The printed log lines are not modelled.
- GamePoc.ToBBoxItem: the id is stated as a digit string that starts with x1's decimal form. `GamePoc.IdCollision` shows the consequence of writing the fields together with no separator. The whole concatenation is stated only by the function itself.
- The regular expression and the Tesseract engine are not modelled. A function gives each line's successive matches as six captured groups, and `take(5)` and the confidence test are modelled over them.
- Splitting the hOCR text into lines is not modelled: lines are given as a sequence.
- The `\d` class of the pattern also matches non-ASCII digits, which `parse` rejects. Every `parse().unwrap()` that runs must succeed, and this is a precondition.
- Command-line parsing (`clap`, `std::env::args`) is not modelled; its values are parameters.
- In `src/main.rs`, the process handle that is opened per region is not modelled.
- `member.get_offset()` is treated as infallible and equal to `offset + start`.
- crates/server and crates/screen (HTTP serving of screenshots and OCR) are not part of this model.
