/** The filter of `upd_list.js`: besides dropping excluded channels it
    restructures the playlist, emitting only the trimmed header, the kept
    `#EXTINF:` lines with the comma fix applied, their address lines, and a
    blank line after the header and after every channel. */
module UpdList {
  import opened Text
  import opened M3u
  import opened Exclusions

  /** An `#EXTINF:` line (already `trimEnd`-ed) whose first `group-title`
      value, possibly empty, trimmed then lower-cased, is in the list. */
  predicate Excluded(currentLine: string, excludedLower: seq<string>) {
    match GroupTitle(currentLine, true)
    case Some(group) => Lower(Trim(group)) in excludedLower
    case None => false
  }

  /** The drop rule of this filter as a value. */
  function Rule(excludedLower: seq<string>): (drop: string -> bool)
    ensures forall line :: drop(line) == Excluded(line, excludedLower)
  {
    line => Excluded(line, excludedLower)
  }

  /** The emitted lines and the number of channels removed. */
  datatype Pass = Pass(kept: seq<string>, removed: nat)

  /** One turn of the loop: emitted lines, removed channels, next index. */
  datatype Step = Step(emitted: seq<string>, removed: nat, next: nat)

  /** Blank after `trimEnd`, or a comment other than `#EXTINF:`. */
  predicate Skipped(currentLine: string) {
    currentLine == [] || (StartsWith(currentLine, "#") && !StartsWith(currentLine, InfoTag))
  }

  /** What is emitted for the line at index `j`, the one after a kept
      `#EXTINF:` line: its `trimEnd` when that is non-empty and not a
      comment, nothing otherwise. */
  function AddressAfter(lines: seq<string>, j: nat): seq<string>
  {
    if j < |lines| && TrimEnd(lines[j]) != [] && !StartsWith(TrimEnd(lines[j]), "#") then [TrimEnd(lines[j])]
    else []
  }

  /** What one turn of the loop does at index `i`: the lines it emits, the
      channels it removes and the index it moves on to.  Blank lines,
      comments and stray lines are passed over one at a time; a dropped
      `#EXTINF:` line goes with the line after it; a kept one is emitted
      with the comma fix, followed by its address, when the next line is
      one, and a blank line, and the next line is consumed whatever it is. */
  function LineStep(lines: seq<string>, drop: string -> bool, i: nat): (s: Step)
    requires i < |lines|
    ensures i < s.next <= i + 2
  {
    var currentLine := TrimEnd(lines[i]);
    if Skipped(currentLine) then Step([], 0, i + 1)
    else if StartsWith(currentLine, InfoTag) then
      if drop(currentLine) then Step([], 1, i + 2)
      else Step([FixCommas(currentLine)] + AddressAfter(lines, i + 1) + [""], 0, i + 2)
    else Step([], 0, i + 1)
  }

  /** The loop from index `i` on, for a rule `drop` deciding which `#EXTINF:`
      lines go. */
  function Restructure(lines: seq<string>, drop: string -> bool, i: nat): (r: Pass)
    decreases |lines| - i
  {
    if i >= |lines| then Pass([], 0)
    else
      var step := LineStep(lines, drop, i);
      var rest := Restructure(lines, drop, step.next);
      Pass(step.emitted + rest.kept, step.removed + rest.removed)
  }

  /** The whole pass: a header in first place is emitted trimmed and followed
      by a blank line, and the loop starts after it. */
  function Output(lines: seq<string>, drop: string -> bool): (r: Pass) {
    if |lines| > 0 && IsHeader(lines[0]) then
      var rest := Restructure(lines, drop, 1);
      Pass([Trim(lines[0]), ""] + rest.kept, rest.removed)
    else Restructure(lines, drop, 0)
  }

  // ---------------------------------------------------------------------------
  // The imperative pass.

  /** The header handling and the loop of `processPlaylist`; `drop` is the
      exclusion rule as a value, for the specification only. */
  method RestructureLines(lines: seq<string>, excludedLower: seq<string>, ghost drop: string -> bool)
    returns (newLines: seq<string>, removedCount: nat)
    requires forall line {:trigger Excluded(line, excludedLower)} :: drop(line) == Excluded(line, excludedLower)
    ensures newLines == Output(lines, drop).kept
    ensures removedCount == Output(lines, drop).removed
  {
    newLines := [];
    var i := 0;
    if |lines| > 0 && IsHeader(lines[0]) {
      newLines := newLines + [Trim(lines[0])];
      newLines := newLines + [""];
      i := 1;
    }
    newLines, removedCount := Channels(lines, excludedLower, drop, i, newLines);
  }

  /** The `while` loop of `processPlaylist`, from index `start`, appending to
      the lines `emitted` before it. */
  method Channels(lines: seq<string>, excludedLower: seq<string>, ghost drop: string -> bool,
                  start: nat, emitted: seq<string>)
    returns (newLines: seq<string>, removedCount: nat)
    requires forall line {:trigger Excluded(line, excludedLower)} :: drop(line) == Excluded(line, excludedLower)
    requires start <= |lines|
    ensures newLines == emitted + Restructure(lines, drop, start).kept
    ensures removedCount == Restructure(lines, drop, start).removed
  {
    newLines := emitted;
    removedCount := 0;
    var i := start;
    while i < |lines|
      invariant start <= i <= |lines| + 1
      invariant newLines + Restructure(lines, drop, i).kept == emitted + Restructure(lines, drop, start).kept
      invariant removedCount + Restructure(lines, drop, i).removed == Restructure(lines, drop, start).removed
    {
      var block, removed, next := Turn(lines, excludedLower, drop, i);
      ghost var rest := Restructure(lines, drop, next);
      assert Restructure(lines, drop, i) == Pass(block + rest.kept, removed + rest.removed);
      assert newLines + (block + rest.kept) == (newLines + block) + rest.kept;
      newLines := newLines + block;
      removedCount := removedCount + removed;
      i := next;
    }
  }

  /** One turn of the loop at index `i`: blank lines and comments other than
      `#EXTINF:` are passed over, an `#EXTINF:` line is handled with the
      line after it, and any other line is passed over too. */
  method Turn(lines: seq<string>, excludedLower: seq<string>, ghost drop: string -> bool, i: nat)
    returns (block: seq<string>, removed: nat, next: nat)
    requires forall line {:trigger Excluded(line, excludedLower)} :: drop(line) == Excluded(line, excludedLower)
    requires i < |lines|
    ensures LineStep(lines, drop, i) == Step(block, removed, next)
  {
    var currentLine := TrimEnd(lines[i]);
    if currentLine == [] || (StartsWith(currentLine, "#") && !StartsWith(currentLine, InfoTag)) {
      return [], 0, i + 1;
    }
    if StartsWith(currentLine, InfoTag) {
      block, removed := Channel(lines, excludedLower, drop, i);
      next := i + 2;
    } else {
      block, removed, next := [], 0, i + 1;
    }
  }

  /** The body of the loop at an `#EXTINF:` line: the lines it emits and
      whether it removes the channel. */
  method Channel(lines: seq<string>, excludedLower: seq<string>, ghost drop: string -> bool, i: nat)
    returns (block: seq<string>, removed: nat)
    requires forall line {:trigger Excluded(line, excludedLower)} :: drop(line) == Excluded(line, excludedLower)
    requires i < |lines| && StartsWith(TrimEnd(lines[i]), InfoTag)
    ensures LineStep(lines, drop, i) == Step(block, removed, i + 2)
  {
    var currentLine := TrimEnd(lines[i]);
    InfoIsNotSkipped(currentLine);
    var shouldSkip := ShouldSkip(currentLine, excludedLower);
    if shouldSkip {
      block, removed := [], 1;
      return;
    }
    removed := 0;
    block := [FixCommas(currentLine)];
    if i + 1 < |lines| {
      var urlLine := TrimEnd(lines[i + 1]);
      if urlLine != [] && !StartsWith(urlLine, "#") {
        block := block + [urlLine];
      }
    }
    block := block + [""];
  }

  /** The `group-title` test of the loop. */
  method ShouldSkip(currentLine: string, excludedLower: seq<string>) returns (shouldSkip: bool)
    ensures shouldSkip == Excluded(currentLine, excludedLower)
  {
    shouldSkip := false;
    var groupMatch := GroupTitle(currentLine, true);
    if groupMatch.Some? {
      var groupValue := Lower(Trim(groupMatch.value));
      if groupValue in excludedLower {
        shouldSkip := true;
      }
    }
  }

  /** A blank line, a comment or a stray line is passed over on its own. */
  lemma PassOver(lines: seq<string>, drop: string -> bool, i: nat)
    requires i < |lines|
    requires Skipped(TrimEnd(lines[i])) || !StartsWith(TrimEnd(lines[i]), InfoTag)
    ensures LineStep(lines, drop, i) == Step([], 0, i + 1)
    ensures Restructure(lines, drop, i) == Restructure(lines, drop, i + 1)
  {
    assert [] + Restructure(lines, drop, i + 1).kept == Restructure(lines, drop, i + 1).kept;
  }

  lemma InfoIsNotSkipped(currentLine: string)
    requires StartsWith(currentLine, InfoTag)
    ensures !Skipped(currentLine)
  {
  }

  /** `processPlaylist` after the download: normalise the categories, split
      the text, restructure, join and collapse the trailing newlines. */
  method ProcessPlaylist(playlistText: string, excludedCategories: Categories)
    returns (updatedPlaylist: string, removedCount: nat)
    ensures var pass := Output(Split(playlistText), Rule(Normalize(excludedCategories)));
            updatedPlaylist == Join(pass.kept) && removedCount == pass.removed
    ensures removedCount <= InfoCount(Split(playlistText), 0)
    ensures updatedPlaylist == [] ||
              (updatedPlaylist[|updatedPlaylist| - 1] == '\n' &&
               (|updatedPlaylist| == 1 || updatedPlaylist[|updatedPlaylist| - 2] != '\n'))
  {
    var excludedLower := Normalize(excludedCategories);
    var lines := Split(playlistText);
    var newLines;
    newLines, removedCount := RestructureLines(lines, excludedLower, Rule(excludedLower));
    updatedPlaylist := CollapseTrailingNewlines(Join(newLines));
    OutputShape(lines, Rule(excludedLower));
    CollapseChangesNothing(newLines);
    RemovedAtMostInfoLines(lines, Rule(excludedLower));
  }

  // ---------------------------------------------------------------------------
  // The shape of the output.

  /** An emitted `#EXTINF:` line: tagged, with no whitespace before a comma
      and none at the end. */
  predicate InfoOut(l: string) {
    l != [] && StartsWith(l, InfoTag) && NoSpaceBeforeComma(l) && !IsSpace(l[|l| - 1])
  }

  /** An emitted address line: non-empty, not a comment, no whitespace at the end. */
  predicate AddressOut(l: string) {
    l != [] && !StartsWith(l, "#") && !IsSpace(l[|l| - 1])
  }

  /** The emitted header: the tag, with no whitespace at either end. */
  predicate HeaderOut(l: string) {
    StartsWith(l, HeaderTag) && Trim(l) == l
  }

  /** One channel block: an `#EXTINF:` line, at most one address line, and a
      blank separator. */
  predicate IsBlock(b: seq<string>) {
    (|b| == 2 && InfoOut(b[0]) && b[1] == []) ||
    (|b| == 3 && InfoOut(b[0]) && AddressOut(b[1]) && b[2] == [])
  }

  /** A run of channel blocks. */
  predicate Blocks(ls: seq<string>)
    decreases |ls|
  {
    ls == [] ||
    (|ls| >= 2 && InfoOut(ls[0]) &&
     ((ls[1] == [] && Blocks(ls[2..])) ||
      (|ls| >= 3 && AddressOut(ls[1]) && ls[2] == [] && Blocks(ls[3..]))))
  }

  /** Channel blocks, optionally after the header and its blank line. */
  predicate Structured(ls: seq<string>) {
    Blocks(ls) || (|ls| >= 2 && HeaderOut(ls[0]) && ls[1] == [] && Blocks(ls[2..]))
  }

  /** No line holds a '\n', so joining then splitting gives the lines back. */
  predicate NoNewlines(ls: seq<string>) {
    forall k :: 0 <= k < |ls| ==> '\n' !in ls[k]
  }

  lemma BlockThenBlocks(b: seq<string>, rest: seq<string>)
    requires IsBlock(b) && Blocks(rest)
    ensures Blocks(b + rest)
  {
    var ls := b + rest;
    if |b| == 2 {
      assert ls[2..] == rest;
    } else {
      assert ls[3..] == rest;
    }
  }

  /** What follows a kept `#EXTINF:` line is nothing or a single address
      line as the output has it. */
  lemma AddressAfterOut(lines: seq<string>, j: nat)
    requires NoNewlines(lines)
    ensures var r := AddressAfter(lines, j);
            r == [] || (|r| == 1 && AddressOut(r[0]) && '\n' !in r[0])
  {
    if j < |lines| {
      TrimEndLine(lines[j]);
    }
  }

  /** `trimEnd` keeps a line free of '\n' and leaves no whitespace at its end. */
  lemma TrimEndLine(s: string)
    requires '\n' !in s
    ensures '\n' !in TrimEnd(s)
    ensures TrimEnd(s) == [] || !IsSpace(TrimEnd(s)[|TrimEnd(s)| - 1])
  {
    TrimEndFacts(s);
  }

  /** A line that is tagged once `trimEnd` has run is tagged as it stands. */
  lemma TaggedIsInfo(l: string)
    requires StartsWith(TrimEnd(l), InfoTag)
    ensures StartsWith(l, InfoTag) && IsInfo(l) && !IsHeader(l)
  {
    TrimEndFacts(l);
    var r := TrimEnd(l);
    assert l[..|InfoTag|] == r[..|InfoTag|];
    InfoTagSeen(l);
  }

  lemma InfoTagIsComment(l: string)
    requires StartsWith(l, InfoTag)
    ensures StartsWith(l, "#")
  {
    assert l[..1] == l[..|InfoTag|][..1];
  }

  lemma HeaderTagIsNotInfoTag(l: string)
    requires StartsWith(l, HeaderTag)
    ensures !StartsWith(l, InfoTag)
  {
    if |l| >= |InfoTag| {
      assert l[..|InfoTag|][4] == l[..|HeaderTag|][4];
    }
  }

  /** The comma fix keeps the tag of an `#EXTINF:` line. */
  lemma FixKeepsInfoTag(currentLine: string)
    requires StartsWith(currentLine, InfoTag)
    ensures StartsWith(FixCommas(currentLine), InfoTag)
  {
    var tail := currentLine[|InfoTag|..];
    assert currentLine == InfoTag + tail;
    assert forall k :: 0 <= k < |InfoTag| ==> !IsSpace(InfoTag[k]);
    FixCommasKeepsPrefix(InfoTag, tail);
    assert FixCommas(currentLine) == InfoTag + FixCommas(tail);
  }

  /** The comma fix applied to a kept `#EXTINF:` line gives an emitted one. */
  lemma FixedInfoOut(currentLine: string)
    requires currentLine != [] && StartsWith(currentLine, InfoTag)
    requires '\n' !in currentLine && !IsSpace(currentLine[|currentLine| - 1])
    ensures InfoOut(FixCommas(currentLine)) && '\n' !in FixCommas(currentLine)
  {
    FixKeepsInfoTag(currentLine);
    FixCommasHasNoSpaceBeforeComma(currentLine);
    FixCommasKeepsLast(currentLine);
    FixCommasAddsNoNewline(currentLine);
  }

  /** An emitted `#EXTINF:` line with what follows it is a channel block. */
  lemma BlockShape(info: string, address: seq<string>)
    requires InfoOut(info) && '\n' !in info
    requires address == [] || (|address| == 1 && AddressOut(address[0]) && '\n' !in address[0])
    ensures IsBlock([info] + address + [""]) && NoNewlines([info] + address + [""])
  {
  }

  /** One turn of the loop emits nothing or one channel block, and no line
      holding a '\n'. */
  lemma StepShape(lines: seq<string>, drop: string -> bool, i: nat)
    requires i < |lines| && NoNewlines(lines)
    ensures var b := LineStep(lines, drop, i).emitted;
            (b == [] || IsBlock(b)) && NoNewlines(b)
  {
    var currentLine := TrimEnd(lines[i]);
    if StartsWith(currentLine, InfoTag) && !drop(currentLine) {
      InfoIsNotSkipped(currentLine);
      assert '\n' !in lines[i];
      TrimEndLine(lines[i]);
      FixedInfoOut(currentLine);
      var address := AddressAfter(lines, i + 1);
      AddressAfterOut(lines, i + 1);
      BlockShape(FixCommas(currentLine), address);
      assert LineStep(lines, drop, i).emitted == [FixCommas(currentLine)] + address + [""];
    } else {
      assert LineStep(lines, drop, i).emitted == [];
    }
  }

  /** What the loop emits from index `i` on is a run of channel blocks, none
      of whose lines holds a '\n'. */
  lemma {:induction false} RestructureShape(lines: seq<string>, drop: string -> bool, i: nat)
    requires NoNewlines(lines)
    ensures var kept := Restructure(lines, drop, i).kept;
            Blocks(kept) && NoNewlines(kept)
    decreases |lines| - i
  {
    if i < |lines| {
      var step := LineStep(lines, drop, i);
      var rest := Restructure(lines, drop, step.next).kept;
      RestructureShape(lines, drop, step.next);
      StepShape(lines, drop, i);
      if step.emitted == [] {
        assert step.emitted + rest == rest;
      } else {
        BlockThenBlocks(step.emitted, rest);
      }
    }
  }

  /** The whole output is free of '\n' inside its lines and is made of
      channel blocks, after the trimmed header and a blank line exactly when
      the input starts with a header. */
  lemma OutputShape(lines: seq<string>, drop: string -> bool)
    requires NoNewlines(lines)
    ensures var kept := Output(lines, drop).kept;
            Structured(kept) && NoNewlines(kept)
    ensures var kept := Output(lines, drop).kept;
            |lines| > 0 && IsHeader(lines[0]) ==>
              |kept| >= 2 && kept[0] == Trim(lines[0]) && HeaderOut(kept[0]) && kept[1] == [] && Blocks(kept[2..])
    ensures !(|lines| > 0 && IsHeader(lines[0])) ==> Blocks(Output(lines, drop).kept)
  {
    if |lines| > 0 && IsHeader(lines[0]) {
      RestructureShape(lines, drop, 1);
      var h := Trim(lines[0]);
      TrimIdempotent(lines[0]);
      TrimStartFacts(lines[0]);
      TrimEndFacts(TrimStart(lines[0]));
      assert '\n' !in h;
      var kept := [h, ""] + Restructure(lines, drop, 1).kept;
      assert kept[2..] == Restructure(lines, drop, 1).kept;
    } else {
      RestructureShape(lines, drop, 0);
    }
  }

  /** Channel blocks end with a blank line after a non-blank one. */
  lemma {:induction false} BlocksEnd(ls: seq<string>)
    requires Blocks(ls) && ls != [] && NoNewlines(ls)
    ensures |ls| >= 2 && ls[|ls| - 1] == [] && ls[|ls| - 2] != [] && '\n' !in ls[|ls| - 2]
    decreases |ls|
  {
    if ls[1] == [] && Blocks(ls[2..]) {
      if ls[2..] != [] {
        BlocksEnd(ls[2..]);
      }
    } else {
      if ls[3..] != [] {
        BlocksEnd(ls[3..]);
      }
    }
  }

  lemma StructuredEnd(ls: seq<string>)
    requires Structured(ls) && ls != [] && NoNewlines(ls)
    ensures |ls| >= 2 && ls[|ls| - 1] == [] && ls[|ls| - 2] != [] && '\n' !in ls[|ls| - 2]
  {
    if Blocks(ls) {
      BlocksEnd(ls);
    } else if ls[2..] != [] {
      BlocksEnd(ls[2..]);
    }
  }

  /** The final `replace(/\n+$/, '\n')` never changes the joined lines: they
      are empty or end with exactly one '\n'. */
  lemma CollapseChangesNothing(ls: seq<string>)
    requires Structured(ls) && NoNewlines(ls)
    ensures var text := Join(ls);
            CollapseTrailingNewlines(text) == text &&
            (text == [] || (text[|text| - 1] == '\n' && (|text| == 1 || text[|text| - 2] != '\n')))
  {
    if ls != [] {
      StructuredEnd(ls);
      var init := ls[..|ls| - 1];
      JoinEndsWithEmpty(ls);
      JoinEndsWithLast(init);
      var text := Join(ls);
      assert text == Join(init) + "\n";
      var r := DropTrailingNewlines(text);
      assert text[|text| - 2] != '\n';
      assert |r| == |text| - 1;
      assert r + "\n" == text;
    }
  }

  // ---------------------------------------------------------------------------
  // Counting.

  /** A turn of the loop removes at most one channel, charged to the
      `#EXTINF:` line it passes. */
  lemma StepCount(lines: seq<string>, drop: string -> bool, i: nat)
    requires i < |lines|
    ensures var step := LineStep(lines, drop, i);
            step.removed + InfoCount(lines, step.next) <= InfoCount(lines, i)
  {
    var currentLine := TrimEnd(lines[i]);
    if StartsWith(currentLine, InfoTag) {
      InfoIsNotSkipped(currentLine);
      TaggedIsInfo(lines[i]);
      InfoCountStep(lines, i + 1);
    }
  }

  /** Each removal is charged to a distinct `#EXTINF:` line. */
  lemma {:induction false} RemovedAtMost(lines: seq<string>, drop: string -> bool, i: nat)
    ensures Restructure(lines, drop, i).removed <= InfoCount(lines, i)
    decreases |lines| - i
  {
    if i < |lines| {
      var step := LineStep(lines, drop, i);
      RemovedAtMost(lines, drop, step.next);
      StepCount(lines, drop, i);
    }
  }

  /** `removedCount` is at most the number of `#EXTINF:` lines. */
  lemma RemovedAtMostInfoLines(lines: seq<string>, drop: string -> bool)
    ensures Output(lines, drop).removed <= InfoCount(lines, 0)
  {
    RemovedAtMost(lines, drop, 0);
    RemovedAtMost(lines, drop, 1);
  }

  // ---------------------------------------------------------------------------
  // A second pass.

  /** The rule keeps every kept `#EXTINF:` line once the comma fix has run. */
  ghost predicate Stable(drop: string -> bool) {
    forall line :: StartsWith(line, InfoTag) && !drop(line) ==> !drop(FixCommas(line))
  }

  /** No tagged line of `ls` is one the rule drops. */
  predicate InfosKept(ls: seq<string>, drop: string -> bool) {
    forall k :: 0 <= k < |ls| && StartsWith(ls[k], InfoTag) ==> !drop(ls[k])
  }

  /** With a stable rule, a turn of the loop emits no tagged line the rule drops. */
  lemma StepKeepsInfos(lines: seq<string>, drop: string -> bool, i: nat)
    requires Stable(drop) && i < |lines|
    ensures InfosKept(LineStep(lines, drop, i).emitted, drop)
  {
    var currentLine := TrimEnd(lines[i]);
    var b := LineStep(lines, drop, i).emitted;
    if StartsWith(currentLine, InfoTag) && !drop(currentLine) {
      InfoIsNotSkipped(currentLine);
      forall k | 0 <= k < |b| && StartsWith(b[k], InfoTag) ensures !drop(b[k]) {
        if k == 1 && |b| == 3 {
          InfoTagIsComment(b[k]);
        }
      }
    }
  }

  /** With a stable rule, no emitted tagged line is one the rule drops. */
  lemma {:induction false} KeptInfosSurvive(lines: seq<string>, drop: string -> bool, i: nat)
    requires Stable(drop)
    ensures InfosKept(Restructure(lines, drop, i).kept, drop)
    decreases |lines| - i
  {
    if i < |lines| {
      var step := LineStep(lines, drop, i);
      var rest := Restructure(lines, drop, step.next).kept;
      KeptInfosSurvive(lines, drop, step.next);
      StepKeepsInfos(lines, drop, i);
      var kept := step.emitted + rest;
      forall k | |step.emitted| <= k < |kept| ensures kept[k] == rest[k - |step.emitted|] {}
    }
  }

  lemma OutputInfosSurvive(lines: seq<string>, drop: string -> bool)
    requires Stable(drop)
    ensures InfosKept(Output(lines, drop).kept, drop)
  {
    if |lines| > 0 && IsHeader(lines[0]) {
      KeptInfosSurvive(lines, drop, 1);
      HeaderTagIsNotInfoTag(Trim(lines[0]));
      var rest := Restructure(lines, drop, 1).kept;
      var kept := [Trim(lines[0]), ""] + rest;
      forall k | 2 <= k < |kept| ensures kept[k] == rest[k - 2] {}
    } else {
      KeptInfosSurvive(lines, drop, 0);
    }
  }

  /** An emitted `#EXTINF:` line that the rule keeps is emitted again as it is. */
  lemma KeptInfoStep(ls: seq<string>, drop: string -> bool, i: nat)
    requires i < |ls| && InfoOut(ls[i]) && !drop(ls[i])
    ensures LineStep(ls, drop, i) == Step([ls[i]] + AddressAfter(ls, i + 1) + [""], 0, i + 2)
  {
    assert TrimEnd(ls[i]) == ls[i];
    InfoIsNotSkipped(ls[i]);
    FixCommasKeepsCleanLine(ls[i]);
  }

  /** A block without an address goes through the loop unchanged. */
  lemma ShortBlockStep(ls: seq<string>, drop: string -> bool, i: nat)
    requires i + 1 < |ls| && InfoOut(ls[i]) && !drop(ls[i]) && ls[i + 1] == []
    ensures var rest := Restructure(ls, drop, i + 2);
            Restructure(ls, drop, i) == Pass(ls[i..i + 2] + rest.kept, rest.removed)
  {
    KeptInfoStep(ls, drop, i);
    assert AddressAfter(ls, i + 1) == [];
    assert [ls[i]] + [] + [""] == ls[i..i + 2];
  }

  /** A block with an address goes through the loop unchanged; its blank
      separator is passed over as a blank line. */
  lemma LongBlockStep(ls: seq<string>, drop: string -> bool, i: nat)
    requires i + 2 < |ls| && InfoOut(ls[i]) && !drop(ls[i]) && AddressOut(ls[i + 1]) && ls[i + 2] == []
    ensures var rest := Restructure(ls, drop, i + 3);
            Restructure(ls, drop, i) == Pass(ls[i..i + 3] + rest.kept, rest.removed)
  {
    KeptInfoStep(ls, drop, i);
    assert TrimEnd(ls[i + 1]) == ls[i + 1];
    assert AddressAfter(ls, i + 1) == [ls[i + 1]];
    PassOver(ls, drop, i + 2);
    assert [ls[i]] + [ls[i + 1]] + [""] == ls[i..i + 3];
  }

  lemma InfosKeptSuffix(ls: seq<string>, drop: string -> bool, i: nat, j: nat)
    requires i <= j <= |ls| && InfosKept(ls[i..], drop)
    ensures InfosKept(ls[j..], drop) && (j < |ls| && StartsWith(ls[j], InfoTag) ==> !drop(ls[j]))
  {
    forall k | 0 <= k < |ls| - j ensures ls[j..][k] == ls[i..][k + j - i] {}
  }

  /** Channel blocks whose tagged lines the rule keeps come out of the loop
      as they went in. */
  lemma {:induction false} BlocksAreFixed(ls: seq<string>, drop: string -> bool, i: nat)
    requires i <= |ls| && Blocks(ls[i..]) && InfosKept(ls[i..], drop)
    ensures Restructure(ls, drop, i) == Pass(ls[i..], 0)
    decreases |ls| - i, 1
  {
    if i < |ls| {
      var tail := ls[i..];
      assert tail[0] == ls[i] && tail[1] == ls[i + 1];
      InfosKeptSuffix(ls, drop, i, i);
      if tail[1] == [] && Blocks(tail[2..]) {
        assert tail[2..] == ls[i + 2..];
        ShortBlockIsFixed(ls, drop, i);
      } else {
        assert tail[2] == ls[i + 2] && tail[3..] == ls[i + 3..];
        LongBlockIsFixed(ls, drop, i);
      }
    }
  }

  lemma {:induction false} ShortBlockIsFixed(ls: seq<string>, drop: string -> bool, i: nat)
    requires i + 1 < |ls| && InfoOut(ls[i]) && !drop(ls[i]) && ls[i + 1] == []
    requires Blocks(ls[i + 2..]) && InfosKept(ls[i..], drop)
    ensures Restructure(ls, drop, i) == Pass(ls[i..], 0)
    decreases |ls| - i, 0
  {
    InfosKeptSuffix(ls, drop, i, i + 2);
    BlocksAreFixed(ls, drop, i + 2);
    ShortBlockStep(ls, drop, i);
    SliceSplit(ls, i, i + 2);
  }

  lemma {:induction false} LongBlockIsFixed(ls: seq<string>, drop: string -> bool, i: nat)
    requires i + 2 < |ls| && InfoOut(ls[i]) && !drop(ls[i]) && AddressOut(ls[i + 1]) && ls[i + 2] == []
    requires Blocks(ls[i + 3..]) && InfosKept(ls[i..], drop)
    ensures Restructure(ls, drop, i) == Pass(ls[i..], 0)
    decreases |ls| - i, 0
  {
    InfosKeptSuffix(ls, drop, i, i + 3);
    BlocksAreFixed(ls, drop, i + 3);
    LongBlockStep(ls, drop, i);
    SliceSplit(ls, i, i + 3);
  }

  /** A structured output whose tagged lines the rule keeps is a fixed point
      of the whole pass. */
  lemma StructuredIsFixed(ls: seq<string>, drop: string -> bool)
    requires Structured(ls) && InfosKept(ls, drop)
    ensures Output(ls, drop) == Pass(ls, 0)
  {
    if Blocks(ls) {
      if ls != [] {
        InfoTagSeen(ls[0]);
      }
      assert ls[0..] == ls;
      BlocksAreFixed(ls, drop, 0);
    } else {
      var h := ls[0];
      assert IsHeader(h);
      BlocksAreFixed(ls, drop, 2);
      PassOver(ls, drop, 1);
      assert [h, ""] + ls[2..] == ls;
    }
  }

  /** Running the pass on its own output, with a stable rule, emits the same
      lines and removes nothing. */
  lemma Idempotent(playlistText: string, drop: string -> bool)
    requires Stable(drop)
    ensures var once := Output(Split(playlistText), drop).kept;
            Output(Split(Join(once)), drop) == Pass(once, 0)
  {
    var lines := Split(playlistText);
    var once := Output(lines, drop).kept;
    OutputShape(lines, drop);
    OutputInfosSurvive(lines, drop);
    if once == [] {
      assert Split(Join(once)) == [[]];
      PassOver([[]], drop, 0);
    } else {
      SplitJoin(once);
      StructuredIsFixed(once, drop);
    }
  }

  /** With an empty exclusion list the rule drops nothing, so it is stable
      and a second run changes nothing. */
  lemma EmptyListIdempotent(playlistText: string)
    ensures var once := Output(Split(playlistText), Rule([])).kept;
            Output(Split(Join(once)), Rule([])) == Pass(once, 0)
  {
    assert Stable(Rule([]));
    Idempotent(playlistText, Rule([]));
  }

  // ---------------------------------------------------------------------------
  // Which channels come out of a well-formed playlist.

  /** A drop rule applied to a raw line the way the loop applies it: to the
      line after `trimEnd`. */
  function LineRule(drop: string -> bool): (r: string -> bool)
    ensures forall line :: r(line) == drop(TrimEnd(line))
  {
    line => drop(TrimEnd(line))
  }

  /** The lines the loop writes for the channels it keeps: per channel the
      fixed `#EXTINF:` line, the address after `trimEnd`, and a blank line. */
  function ChannelBlocks(cs: seq<Channel>): (r: seq<string>)
    ensures |r| == 3 * |cs|
  {
    if cs == [] then []
    else [FixCommas(TrimEnd(cs[0].info)), TrimEnd(cs[0].address), ""] + ChannelBlocks(cs[1..])
  }

  /** Every channel of `cs` is seen by the loop as an `#EXTINF:` line followed
      by an address line. */
  predicate SeenAsChannels(cs: seq<Channel>)
    decreases |cs|
  {
    cs == [] ||
    (StartsWith(TrimEnd(cs[0].info), InfoTag) && TrimEnd(cs[0].address) != [] &&
     !StartsWith(TrimEnd(cs[0].address), "#") && SeenAsChannels(cs[1..]))
  }

  lemma {:induction false} AllSeenAsChannels(cs: seq<Channel>)
    requires forall k :: 0 <= k < |cs| ==> IsChannel(cs[k])
    ensures SeenAsChannels(cs)
    decreases |cs|
  {
    if cs != [] {
      ChannelSeen(cs[0]);
      AllSeenAsChannels(cs[1..]);
    }
  }

  /** The loop at the two lines of a channel. */
  lemma ChannelStep(lines: seq<string>, drop: string -> bool, j: nat)
    requires j + 1 < |lines| && StartsWith(TrimEnd(lines[j]), InfoTag)
    requires TrimEnd(lines[j + 1]) != [] && !StartsWith(TrimEnd(lines[j + 1]), "#")
    ensures var after := Restructure(lines, drop, j + 2);
            Restructure(lines, drop, j) ==
              if drop(TrimEnd(lines[j])) then Pass(after.kept, after.removed + 1)
              else Pass([FixCommas(TrimEnd(lines[j])), TrimEnd(lines[j + 1]), ""] + after.kept, after.removed)
  {
    var currentLine := TrimEnd(lines[j]);
    InfoIsNotSkipped(currentLine);
    var step := LineStep(lines, drop, j);
    if drop(currentLine) {
      assert step == Step([], 1, j + 2);
    } else {
      assert AddressAfter(lines, j + 1) == [TrimEnd(lines[j + 1])];
      assert step == Step([FixCommas(currentLine), TrimEnd(lines[j + 1]), ""], 0, j + 2);
    }
    var after := Restructure(lines, drop, j + 2);
    assert Restructure(lines, drop, j) == Pass(step.emitted + after.kept, step.removed + after.removed);
  }

  /** One channel's contribution to the loop, as lines and counts only. */
  lemma ChannelCount(here: Pass, after: Pass, cs: seq<Channel>, drop: string -> bool)
    requires cs != []
    requires here == if drop(TrimEnd(cs[0].info)) then Pass(after.kept, after.removed + 1)
                     else Pass([FixCommas(TrimEnd(cs[0].info)), TrimEnd(cs[0].address), ""] + after.kept,
                               after.removed)
    requires var rest := Survivors(cs[1..], LineRule(drop));
             after == Pass(ChannelBlocks(rest), |cs[1..]| - |rest|)
    ensures var survivors := Survivors(cs, LineRule(drop));
            here == Pass(ChannelBlocks(survivors), |cs| - |survivors|)
  {
    var rest := Survivors(cs[1..], LineRule(drop));
    if drop(TrimEnd(cs[0].info)) {
      assert Survivors(cs, LineRule(drop)) == rest;
    } else {
      var c := cs[0];
      assert Survivors(cs, LineRule(drop)) == [c] + rest;
      assert ([c] + rest)[1..] == rest;
    }
  }

  /** Lines none of which is an `#EXTINF:` line once `trimEnd` has run emit
      nothing and count nothing. */
  lemma {:induction false} NoInfoEmitsNothing(lines: seq<string>, drop: string -> bool, j: nat)
    requires j <= |lines|
    requires forall k :: j <= k < |lines| ==> !StartsWith(TrimEnd(lines[k]), InfoTag)
    ensures Restructure(lines, drop, j) == Pass([], 0)
    decreases |lines| - j
  {
    if j < |lines| {
      PassOver(lines, drop, j);
      NoInfoEmitsNothing(lines, drop, j + 1);
    }
  }

  lemma TailEmitsNothing(lines: seq<string>, j: nat, tail: seq<string>, drop: string -> bool)
    requires j <= |lines| && lines[j..] == tail
    requires forall k :: 0 <= k < |tail| ==> !StartsWith(TrimEnd(tail[k]), InfoTag)
    ensures Restructure(lines, drop, j) == Pass([], 0)
  {
    forall k | j <= k < |lines| ensures !StartsWith(TrimEnd(lines[k]), InfoTag) {
      assert lines[k] == tail[k - j];
    }
    NoInfoEmitsNothing(lines, drop, j);
  }

  /** The lines from index `j` on are those of the channels `cs` followed by
      `tail`. */
  predicate ChannelsFrom(lines: seq<string>, j: nat, cs: seq<Channel>, tail: seq<string>) {
    j <= |lines| && lines[j..] == ChannelLines(cs) + tail
  }

  /** The loop at the first channel of a run. */
  lemma FirstChannel(lines: seq<string>, j: nat, cs: seq<Channel>, tail: seq<string>, drop: string -> bool)
    requires ChannelsFrom(lines, j, cs, tail) && cs != [] && SeenAsChannels(cs)
    ensures ChannelsFrom(lines, j + 2, cs[1..], tail) && SeenAsChannels(cs[1..])
    ensures var after := Restructure(lines, drop, j + 2);
            Restructure(lines, drop, j) ==
              if drop(TrimEnd(cs[0].info)) then Pass(after.kept, after.removed + 1)
              else Pass([FixCommas(TrimEnd(cs[0].info)), TrimEnd(cs[0].address), ""] + after.kept,
                        after.removed)
  {
    ChannelLinesCons(lines, j, cs, tail);
    ChannelStep(lines, drop, j);
  }

  /** The loop from index `j` on, where the lines from `j` on are those of
      well-formed channels followed by lines that are not `#EXTINF:` lines. */
  lemma {:induction false} ChannelsRestructuredFrom(lines: seq<string>, j: nat, cs: seq<Channel>, tail: seq<string>,
                                                    drop: string -> bool)
    requires ChannelsFrom(lines, j, cs, tail) && SeenAsChannels(cs)
    requires forall k :: 0 <= k < |tail| ==> !StartsWith(TrimEnd(tail[k]), InfoTag)
    ensures var survivors := Survivors(cs, LineRule(drop));
            Restructure(lines, drop, j) == Pass(ChannelBlocks(survivors), |cs| - |survivors|)
    decreases |cs|
  {
    if cs != [] {
      FirstChannel(lines, j, cs, tail, drop);
      ChannelsRestructuredFrom(lines, j + 2, cs[1..], tail, drop);
      ChannelCount(Restructure(lines, drop, j), Restructure(lines, drop, j + 2), cs, drop);
    } else {
      TailEmitsNothing(lines, j, tail, drop);
    }
  }

  /** A playlist made of an optional header, well-formed channels, and lines
      that are not `#EXTINF:` lines comes out as the trimmed header and a
      blank line, then one block per channel the rule keeps (its fixed
      `#EXTINF:` line, its address and a blank line); the trailing lines
      leave nothing, and the count is the number of the other channels. */
  lemma ChannelsRestructured(head: seq<string>, cs: seq<Channel>, tail: seq<string>, drop: string -> bool)
    requires head == [] || (|head| == 1 && IsHeader(head[0]))
    requires forall k :: 0 <= k < |cs| ==> IsChannel(cs[k])
    requires forall k :: 0 <= k < |tail| ==> !StartsWith(TrimEnd(tail[k]), InfoTag)
    requires head == [] && cs == [] && tail != [] ==> !IsHeader(tail[0])
    ensures var survivors := Survivors(cs, LineRule(drop));
            Output(head + ChannelLines(cs) + tail, drop) ==
              Pass((if head == [] then [] else [Trim(head[0]), ""]) + ChannelBlocks(survivors), |cs| - |survivors|)
  {
    var lines := head + ChannelLines(cs) + tail;
    Concat3(head, ChannelLines(cs), tail);
    assert ChannelsFrom(lines, |head|, cs, tail);
    AllSeenAsChannels(cs);
    ChannelsRestructuredFrom(lines, |head|, cs, tail, drop);
    var rest := Restructure(lines, drop, |head|);
    if head != [] {
      assert lines[0] == head[0];
      assert Output(lines, drop) == Pass([Trim(head[0]), ""] + rest.kept, rest.removed);
    } else {
      if cs != [] {
        ChannelSeen(cs[0]);
        assert lines[0] == cs[0].info;
      }
      assert Output(lines, drop) == rest;
      assert [] + rest.kept == rest.kept;
    }
  }

  /** The same for the text of such a playlist ending in a newline, as the
      script splits it, and its own rule. */
  lemma PlaylistRestructured(head: seq<string>, cs: seq<Channel>, excludedLower: seq<string>)
    requires head == [] || (|head| == 1 && IsHeader(head[0]) && '\n' !in head[0])
    requires head != [] || cs != []
    requires forall k :: 0 <= k < |cs| ==> IsChannel(cs[k])
    ensures var survivors := Survivors(cs, LineRule(Rule(excludedLower)));
            Output(Split(Join(head + ChannelLines(cs)) + "\n"), Rule(excludedLower)) ==
              Pass((if head == [] then [] else [Trim(head[0]), ""]) + ChannelBlocks(survivors), |cs| - |survivors|)
  {
    PlaylistLines(head, cs);
    assert TrimEnd([]) == [];
    ChannelsRestructured(head, cs, [[]], Rule(excludedLower));
  }

  // ---------------------------------------------------------------------------
  // A second run can remove a channel the first one kept.

  /** One `#EXTINF:` line followed by a blank line. */
  lemma OneInfoBlock(line: string, drop: string -> bool)
    requires StartsWith(line, InfoTag) && !IsSpace(line[|line| - 1])
    ensures Output([line, []], drop) ==
              if drop(line) then Pass([], 1) else Pass([FixCommas(line), ""], 0)
  {
    var lines := [line, []];
    assert TrimEnd(line) == line;
    TaggedIsInfo(line);
    InfoIsNotSkipped(line);
    assert Restructure(lines, drop, 2) == Pass([], 0);
    if drop(line) {
      assert LineStep(lines, drop, 0) == Step([], 1, 2);
    } else {
      assert AddressAfter(lines, 1) == [] by {
        assert TrimEnd([]) == [];
      }
      assert LineStep(lines, drop, 0) == Step([FixCommas(line), ""], 0, 2);
    }
  }

  /** A playlist text holding one `#EXTINF:` line, with no address after it. */
  lemma OneInfoLine(line: string, drop: string -> bool)
    requires StartsWith(line, InfoTag) && '\n' !in line && !IsSpace(line[|line| - 1])
    ensures Output(Split(line + "\n"), drop) ==
              if drop(line) then Pass([], 1) else Pass([FixCommas(line), ""], 0)
  {
    assert Join([line]) == line;
    SplitTerminated([line]);
    assert Split(line + "\n") == [line, []];
    OneInfoBlock(line, drop);
  }

  /** `#EXTINF:group-title="<v>"` is a single line ending in a quote. */
  lemma TaggedLine(v: string)
    requires '\n' !in v
    ensures var l := Tagged(v);
            StartsWith(l, InfoTag) && '\n' !in l && !IsSpace(l[|l| - 1])
  {
    M3u.TaggedIsInfo(v);
    var l := Tagged(v);
    assert forall k :: 0 <= k < |Opening| ==> Opening[k] != '\n';
    assert forall k :: 0 <= k < |l| ==> l[k] != '\n' by {
      forall k | 0 <= k < |l| ensures l[k] != '\n' {
        if k < |Opening| {
          assert l[k] == Opening[k];
        } else if k < |Opening| + |v| {
          assert l[k] == v[k - |Opening|];
        }
      }
    }
  }

  /** This filter's rule on `#EXTINF:group-title="<v>"` compares the normal
      form of `v` with the list. */
  lemma TaggedVerdict(v: string, excludedLower: seq<string>)
    requires forall k :: 0 <= k < |v| ==> !IsQuote(v[k])
    ensures Excluded(Tagged(v), excludedLower) <==> Normal(v) in excludedLower
  {
    TaggedFacts(v);
    LowerTrimCommute(v);
  }

  /** How this filter's rule excluding `a,b` sees the line before and after
      the fix. */
  lemma TaggedVerdicts(a: string, b: string)
    requires a != [] && b != [] && Plain(a) && Plain(b)
    ensures var e := [Normal(a + "," + b)];
            !Excluded(Tagged(a + " ," + b), e) && Excluded(Tagged(a + "," + b), e)
  {
    var v1 := a + " ," + b;
    var v2 := a + "," + b;
    var e := [Normal(v2)];
    assert forall k :: 0 <= k < |v1| ==> !IsQuote(v1[k]);
    assert forall k :: 0 <= k < |v2| ==> !IsQuote(v2[k]);
    TaggedVerdict(v1, e);
    TaggedVerdict(v2, e);
    NormalKeepsLength(v1);
    NormalKeepsLength(v2);
  }

  /** The file holding the single line `#EXTINF:group-title="a ,b"` keeps it
      under a run excluding `a,b`, and writes `#EXTINF:group-title="a,b"`
      instead; a second run with the same list reads that text and removes
      the channel: the rule `a,b` is not stable, and the script is not
      idempotent. */
  lemma SecondPassCanRemove(a: string, b: string)
    requires a != [] && b != [] && Plain(a) && Plain(b)
    ensures var e := [Normal(a + "," + b)];
            var first := Output(Split(Tagged(a + " ," + b) + "\n"), Rule(e));
            var written := CollapseTrailingNewlines(Join(first.kept));
            first == Pass([Tagged(a + "," + b), ""], 0) &&
            written == Tagged(a + "," + b) + "\n" &&
            Output(Split(written), Rule(e)) == Pass([], 1)
  {
    var spaced := Tagged(a + " ," + b);
    var joined := Tagged(a + "," + b);
    var e := [Normal(a + "," + b)];
    assert '\n' !in a + " ," + b && '\n' !in a + "," + b;
    TaggedLine(a + " ," + b);
    TaggedLine(a + "," + b);
    TaggedFix(a, b);
    TaggedVerdicts(a, b);
    OneInfoLine(spaced, Rule(e));
    FixedInfoOut(spaced);
    assert Blocks([joined, ""][2..]);
    CollapseChangesNothing([joined, ""]);
    assert Join([joined, ""]) == joined + "\n";
    OneInfoLine(joined, Rule(e));
  }
}
