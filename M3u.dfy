/** Line-level vocabulary of extended-M3U playlists shared by the three
    filters: the `#EXTM3U` header and `#EXTINF:` tags (sections 4.3.1.1 and
    4.3.2.1 of RFC 8216), the informal `group-title="..."` attribute, and the
    two regular-expression rewrites the filters apply. */
module M3u {
  import opened Text

  datatype Option<+T> = None | Some(value: T)

  const HeaderTag := "#EXTM3U"
  const InfoTag := "#EXTINF:"

  /** `line.trim().startsWith('#EXTM3U')` */
  predicate IsHeader(line: string) {
    StartsWith(Trim(line), HeaderTag)
  }

  /** `line.trim().startsWith('#EXTINF:')` */
  predicate IsInfo(line: string) {
    StartsWith(Trim(line), InfoTag)
  }

  lemma HeaderIsNotInfo(line: string)
    ensures !(IsHeader(line) && IsInfo(line))
  {
    var t := Trim(line);
    if StartsWith(t, HeaderTag) && |t| >= |InfoTag| {
      assert t[..|InfoTag|][4] == t[..|HeaderTag|][4] == 'M';
    }
  }

  /** An `#EXTINF:` line written without surrounding whitespace is seen as one
      by both the `trim()` test and the `trimEnd()` test. */
  lemma InfoTagSeen(line: string)
    requires StartsWith(line, InfoTag)
    ensures IsInfo(line) && StartsWith(TrimEnd(line), InfoTag) && !IsHeader(line)
  {
    TrimKeepsPrefix(line, InfoTag);
    HeaderIsNotInfo(line);
  }

  /** Number of `#EXTINF:` lines at index `from` and after. */
  function InfoCount(lines: seq<string>, from: nat): nat
    decreases |lines| - from
  {
    if from >= |lines| then 0
    else (if IsInfo(lines[from]) then 1 else 0) + InfoCount(lines, from + 1)
  }

  /** Starting one line later counts no more `#EXTINF:` lines. */
  lemma InfoCountStep(lines: seq<string>, i: nat)
    ensures InfoCount(lines, i + 1) <= InfoCount(lines, i)
  {
  }

  // ---------------------------------------------------------------------------
  // The group scanner: `line.match(/group-title=["']([^"']*)["']/i)[1]`, and the
  // same with `+` in place of `*` when `allowEmpty` is false.

  const GroupAttr := "group-title="

  predicate IsQuote(c: char) {
    c == '"' || c == '\''
  }

  /** Input character `c` matches the lower-case pattern character `lit` under
      the `i` flag: only ASCII letters have a second case there. */
  predicate SameIgnoringCase(c: char, lit: char) {
    c == lit || ('a' <= lit <= 'z' && c as int == lit as int - 32)
  }

  predicate AttrAt(s: string, p: nat) {
    p + |GroupAttr| <= |s| &&
    forall k :: 0 <= k < |GroupAttr| ==> SameIgnoringCase(s[p + k], GroupAttr[k])
  }

  /** Index of the first quote at or after `q`, or `|s|` when there is none. */
  function QuoteFrom(s: string, q: nat): (e: nat)
    requires q <= |s|
    ensures q <= e <= |s|
    ensures forall k :: q <= k < e ==> !IsQuote(s[k])
    ensures e < |s| ==> IsQuote(s[e])
    decreases |s| - q
  {
    if q == |s| || IsQuote(s[q]) then q else QuoteFrom(s, q + 1)
  }

  /** The captured value of a match of the pattern that starts at index `p`. */
  function GroupValueAt(s: string, p: nat, allowEmpty: bool): (r: Option<string>)
    ensures r.Some? ==> forall k :: 0 <= k < |r.value| ==> !IsQuote(r.value[k])
    ensures r.Some? && !allowEmpty ==> r.value != []
    ensures r.Some? ==> AttrAt(s, p)
  {
    var open := p + |GroupAttr|;
    if AttrAt(s, p) && open < |s| && IsQuote(s[open]) then
      var close := QuoteFrom(s, open + 1);
      if close < |s| && (allowEmpty || close > open + 1) then Some(s[open + 1..close]) else None
    else None
  }

  /** Where the leftmost match at index `p` or later starts; `|s| + 1` when
      there is none. */
  function LeftmostMatch(s: string, p: nat, allowEmpty: bool): (q: nat)
    requires p <= |s| + 1
    ensures p <= q <= |s| + 1
    ensures forall q' :: p <= q' < q ==> GroupValueAt(s, q', allowEmpty).None?
    ensures q <= |s| ==> GroupValueAt(s, q, allowEmpty).Some?
    decreases |s| + 1 - p
  {
    if p > |s| || GroupValueAt(s, p, allowEmpty).Some? then p else LeftmostMatch(s, p + 1, allowEmpty)
  }

  /** The first `group-title` value of a line, if any: the capture of the
      leftmost match. */
  function GroupTitle(line: string, allowEmpty: bool): (r: Option<string>)
    ensures r.None? <==> forall q :: 0 <= q <= |line| ==> GroupValueAt(line, q, allowEmpty).None?
    ensures r.Some? ==> forall k :: 0 <= k < |r.value| ==> !IsQuote(r.value[k])
    ensures r.Some? && !allowEmpty ==> r.value != []
  {
    var q := LeftmostMatch(line, 0, allowEmpty);
    if q <= |line| then GroupValueAt(line, q, allowEmpty) else None
  }

  /** No match of the pattern starts inside a stretch without `g` or `G`. */
  lemma {:induction false} NoMatchBefore(s: string, p: nat, q: nat, allowEmpty: bool)
    requires q <= p <= |s|
    requires forall k :: q <= k < p ==> s[k] != 'g' && s[k] != 'G'
    requires GroupValueAt(s, p, allowEmpty).Some?
    ensures LeftmostMatch(s, q, allowEmpty) == p
    decreases p - q
  {
    if q < p {
      assert !SameIgnoringCase(s[q], GroupAttr[0]);
      assert !AttrAt(s, q);
      NoMatchBefore(s, p, q + 1, allowEmpty);
    }
  }

  lemma {:induction false} QuoteAfter(s: string, q: nat, e: nat)
    requires q <= e < |s| && IsQuote(s[e])
    requires forall k :: q <= k < e ==> !IsQuote(s[k])
    ensures QuoteFrom(s, q) == e
    decreases e - q
  {
    if q < e {
      QuoteAfter(s, q + 1, e);
    }
  }

  /** The attribute spelled in lower case, as the scripts' playlists write it. */
  lemma AttrSpelled(s: string, p: nat)
    requires p + |GroupAttr| <= |s| && s[p..p + |GroupAttr|] == GroupAttr
    ensures AttrAt(s, p)
  {
    forall k | 0 <= k < |GroupAttr| ensures s[p + k] == GroupAttr[k] {
      assert s[p..p + |GroupAttr|][k] == s[p + k];
    }
  }

  /** The capture at a position where the attribute, in any case, a quoted
      value and its closing quote stand. */
  lemma ValueAt(s: string, p: nat, v: string, allowEmpty: bool)
    requires p + |GroupAttr| + |v| + 2 <= |s|
    requires AttrAt(s, p)
    requires IsQuote(s[p + |GroupAttr|]) && IsQuote(s[p + |GroupAttr| + 1 + |v|])
    requires s[p + |GroupAttr| + 1..p + |GroupAttr| + 1 + |v|] == v
    requires forall k :: 0 <= k < |v| ==> !IsQuote(v[k])
    requires allowEmpty || v != []
    ensures GroupValueAt(s, p, allowEmpty) == Some(v)
  {
    var open := p + |GroupAttr|;
    forall k | open + 1 <= k < open + 1 + |v| ensures !IsQuote(s[k]) {
      assert s[open + 1..open + 1 + |v|][k - open - 1] == s[k];
    }
    QuoteAfter(s, open + 1, open + 1 + |v|);
  }

  /** Conversely, a capture stands in the line between two quotes right
      after the attribute: whatever the scanner returns is what the pattern
      matched there. */
  lemma CaptureAt(s: string, p: nat, allowEmpty: bool)
    requires GroupValueAt(s, p, allowEmpty).Some?
    ensures var v := GroupValueAt(s, p, allowEmpty).value;
            var open := p + |GroupAttr|;
            AttrAt(s, p) && open + 1 + |v| < |s| &&
            IsQuote(s[open]) && s[open + 1..open + 1 + |v|] == v && IsQuote(s[open + 1 + |v|]) &&
            (allowEmpty || v != [])
  {
    var open := p + |GroupAttr|;
    var close := QuoteFrom(s, open + 1);
    assert GroupValueAt(s, p, allowEmpty).value == s[open + 1..close];
  }

  /** A line `p group-title="v" t` in which no `g` or `G` comes before the
      attribute yields the value `v`. */
  lemma GroupTitleOf(p: string, v: string, t: string, allowEmpty: bool)
    requires forall k :: 0 <= k < |p| ==> p[k] != 'g' && p[k] != 'G'
    requires forall k :: 0 <= k < |v| ==> !IsQuote(v[k])
    requires allowEmpty || v != []
    ensures GroupTitle(p + GroupAttr + "\"" + v + "\"" + t, allowEmpty) == Some(v)
  {
    var s := p + GroupAttr + "\"" + v + "\"" + t;
    var open := |p| + |GroupAttr|;
    assert s[|p|..open] == GroupAttr;
    assert s[open + 1..open + 1 + |v|] == v;
    AttrSpelled(s, |p|);
    ValueAt(s, |p|, v, allowEmpty);
    NoMatchBefore(s, |p|, 0, allowEmpty);
  }

  // ---------------------------------------------------------------------------
  // The comma fix: `line.replace(/\s+,/g, ',')`.

  /** Length of the run of whitespace that `s` starts with. */
  function SpaceRun(s: string): (k: nat)
    ensures k <= |s|
    ensures forall j :: 0 <= j < k ==> IsSpace(s[j])
    ensures k < |s| ==> !IsSpace(s[k])
  {
    if s != [] && IsSpace(s[0]) then 1 + SpaceRun(s[1..]) else 0
  }

  /** The pattern `\s+,` matches at the start of `s`. */
  predicate CommaAfterRun(s: string) {
    0 < SpaceRun(s) < |s| && s[SpaceRun(s)] == ','
  }

  /** The global replacement, scanning left to right as the regular-expression
      engine does: a match is replaced by a comma and the scan resumes after it;
      elsewhere one character is copied. */
  function FixCommas(s: string): (r: string)
    ensures |r| <= |s|
    decreases |s|
  {
    if s == [] then []
    else if CommaAfterRun(s) then [','] + FixCommas(s[SpaceRun(s) + 1..])
    else [s[0]] + FixCommas(s[1..])
  }

  /** The fix adds no character other than a comma: in particular no '\n'. */
  lemma {:induction false} FixCommasAddsNoNewline(s: string)
    requires '\n' !in s
    ensures '\n' !in FixCommas(s)
    decreases |s|
  {
    if s != [] {
      if CommaAfterRun(s) {
        var t := s[SpaceRun(s) + 1..];
        assert forall c :: c in t ==> c in s;
        FixCommasAddsNoNewline(t);
      } else {
        assert forall c :: c in s[1..] ==> c in s;
        FixCommasAddsNoNewline(s[1..]);
      }
    }
  }

  /** No whitespace character stands directly before a comma, i.e. `/\s+,/`
      finds no match. */
  predicate NoSpaceBeforeComma(s: string) {
    forall k :: 0 < k < |s| && s[k] == ',' ==> !IsSpace(s[k - 1])
  }

  lemma {:induction false} FixCommasHasNoSpaceBeforeComma(s: string)
    ensures NoSpaceBeforeComma(FixCommas(s))
    decreases |s|
  {
    if s == [] {
    } else if CommaAfterRun(s) {
      FixCommasHasNoSpaceBeforeComma(s[SpaceRun(s) + 1..]);
    } else {
      var t := s[1..];
      FixCommasHasNoSpaceBeforeComma(t);
      var r := FixCommas(s);
      forall k | 0 < k < |r| && r[k] == ','
        ensures !IsSpace(r[k - 1])
      {
        if k > 1 {
          assert r[k] == FixCommas(t)[k - 1] && r[k - 1] == FixCommas(t)[k - 2];
        }
      }
    }
  }

  /** A line the pattern does not match is left as it is. */
  lemma {:induction false} FixCommasKeepsCleanLine(s: string)
    requires NoSpaceBeforeComma(s)
    ensures FixCommas(s) == s
    decreases |s|
  {
    if s != [] {
      var k := SpaceRun(s);
      if 0 < k < |s| {
        assert IsSpace(s[k - 1]);
      }
      var t := s[1..];
      assert NoSpaceBeforeComma(t) by {
        forall k | 0 < k < |t| && t[k] == ',' ensures !IsSpace(t[k - 1]) {
          assert s[k + 1] == t[k] && s[k] == t[k - 1];
        }
      }
      FixCommasKeepsCleanLine(t);
    }
  }

  /** The line changes exactly when `/\s+,/` matches it. */
  lemma FixCommasChangesIff(s: string)
    ensures FixCommas(s) == s <==> NoSpaceBeforeComma(s)
  {
    FixCommasHasNoSpaceBeforeComma(s);
    if NoSpaceBeforeComma(s) {
      FixCommasKeepsCleanLine(s);
    }
  }

  lemma FixCommasIdempotent(s: string)
    ensures FixCommas(FixCommas(s)) == FixCommas(s)
  {
    FixCommasHasNoSpaceBeforeComma(s);
    FixCommasKeepsCleanLine(FixCommas(s));
  }

  /** One blank before a comma is removed. */
  lemma FixGap(r: string)
    ensures FixCommas(" ," + r) == "," + FixCommas(r)
  {
    var t := " ," + r;
    assert t[1..] == "," + r;
    assert SpaceRun(t[1..]) == 0;
    assert SpaceRun(t) == 1;
    assert CommaAfterRun(t);
    assert t[2..] == r;
  }

  /** A line whose only whitespace before a comma is one blank loses exactly that blank. */
  lemma FixOneGap(p: string, r: string)
    requires forall k :: 0 <= k < |p| ==> !IsSpace(p[k])
    requires NoSpaceBeforeComma(r)
    ensures FixCommas(p + (" ," + r)) == p + ("," + r)
  {
    FixGap(r);
    FixCommasKeepsCleanLine(r);
    FixCommasKeepsPrefix(p, " ," + r);
  }

  /** The characters of `s` that are not whitespace, in order. */
  function NonSpace(s: string): string
    decreases |s|
  {
    if s == [] then [] else (if IsSpace(s[0]) then [] else [s[0]]) + NonSpace(s[1..])
  }

  lemma {:induction false} NonSpaceSkipsRun(s: string, k: nat)
    requires k <= |s|
    requires forall j :: 0 <= j < k ==> IsSpace(s[j])
    ensures NonSpace(s) == NonSpace(s[k..])
    decreases k
  {
    if k > 0 {
      NonSpaceSkipsRun(s[1..], k - 1);
      assert s[1..][k - 1..] == s[k..];
    }
  }

  lemma NonSpaceCons(c: char, s: string)
    ensures NonSpace([c] + s) == (if IsSpace(c) then [] else [c]) + NonSpace(s)
  {
    assert ([c] + s)[1..] == s;
  }

  /** The fix deletes whitespace only: every other character, the comma
      included, stays and keeps its order. */
  lemma {:induction false} FixCommasDeletesOnlySpace(s: string)
    ensures NonSpace(FixCommas(s)) == NonSpace(s)
    decreases |s|
  {
    if s == [] {
    } else if CommaAfterRun(s) {
      var k := SpaceRun(s);
      FixCommasDeletesOnlySpace(s[k + 1..]);
      NonSpaceSkipsRun(s, k);
      NonSpaceCons(',', s[k + 1..]);
      assert s[k..] == [','] + s[k + 1..];
      NonSpaceCons(',', FixCommas(s[k + 1..]));
    } else {
      FixCommasDeletesOnlySpace(s[1..]);
      NonSpaceCons(s[0], FixCommas(s[1..]));
      NonSpaceCons(s[0], s[1..]);
      assert [s[0]] + s[1..] == s;
    }
  }

  /** A prefix without whitespace passes through the fix unchanged. */
  lemma FixCommasKeepsPrefix(p: string, t: string)
    requires forall k :: 0 <= k < |p| ==> !IsSpace(p[k])
    ensures FixCommas(p + t) == p + FixCommas(t)
  {
    if p != [] {
      FixCommasKeepsCleanPrefix(p, t);
    } else {
      assert p + t == t && p + FixCommas(t) == FixCommas(t);
    }
  }


  /** A clean prefix ending in a character that is not whitespace passes
      through the fix unchanged: whitespace that is not followed, through
      more whitespace, by a comma survives. */
  lemma {:induction false} FixCommasKeepsCleanPrefix(p: string, t: string)
    requires p != [] && !IsSpace(p[|p| - 1]) && NoSpaceBeforeComma(p)
    ensures FixCommas(p + t) == p + FixCommas(t)
    decreases |p|
  {
    CleanPrefixStep(p, t);
    var q := p[1..];
    if q != [] {
      CleanTail(p);
      FixCommasKeepsCleanPrefix(q, t);
      assert [p[0]] + (q + FixCommas(t)) == ([p[0]] + q) + FixCommas(t);
      assert [p[0]] + q == p;
    } else {
      assert q + t == t;
      assert [p[0]] == p;
    }
  }

  /** The fix copies the first character of such a prefix. */
  lemma CleanPrefixStep(p: string, t: string)
    requires p != [] && !IsSpace(p[|p| - 1]) && NoSpaceBeforeComma(p)
    ensures FixCommas(p + t) == [p[0]] + FixCommas(p[1..] + t)
  {
    NoMatchInCleanPrefix(p, t);
    assert (p + t)[1..] == p[1..] + t;
  }

  lemma CleanTail(p: string)
    requires p != [] && NoSpaceBeforeComma(p)
    ensures NoSpaceBeforeComma(p[1..])
  {
    var q := p[1..];
    forall j | 0 < j < |q| && q[j] == ',' ensures !IsSpace(q[j - 1]) {
      assert p[j + 1] == q[j] && p[j] == q[j - 1];
    }
  }

  /** `/\s+,/` does not match at the start of such a prefix. */
  lemma NoMatchInCleanPrefix(p: string, t: string)
    requires p != [] && !IsSpace(p[|p| - 1]) && NoSpaceBeforeComma(p)
    ensures !CommaAfterRun(p + t) && (p + t)[0] == p[0]
  {
    var s := p + t;
    var k := SpaceRun(s);
    assert s[|p| - 1] == p[|p| - 1];
    assert k < |p|;
    if k > 0 {
      assert s[k] == p[k] && s[k - 1] == p[k - 1];
    }
  }

  /** In a line whose whitespace stands between attributes and, in one blank,
      before a single comma, only that blank goes. */
  lemma FixLastGap(p: string, r: string)
    requires p != [] && !IsSpace(p[|p| - 1]) && NoSpaceBeforeComma(p)
    requires NoSpaceBeforeComma(r)
    ensures FixCommas(p + (" ," + r)) == p + ("," + r)
  {
    FixGap(r);
    FixCommasKeepsCleanLine(r);
    FixCommasKeepsCleanPrefix(p, " ," + r);
  }

  /** A reference definition of the fix, character by character: a character
      is deleted exactly when it is whitespace and only whitespace stands
      between it and a comma. */
  function Unpadded(s: string): string
    decreases |s|
  {
    if s == [] then [] else (if CommaAfterRun(s) then [] else [s[0]]) + Unpadded(s[1..])
  }

  /** A run of whitespace ending in a comma leaves only the comma. */
  lemma {:induction false} UnpaddedRun(s: string)
    requires CommaAfterRun(s)
    ensures Unpadded(s) == [','] + Unpadded(s[SpaceRun(s) + 1..])
    decreases |s|
  {
    var k := SpaceRun(s);
    var t := s[1..];
    assert SpaceRun(s) == 1 + SpaceRun(t);
    assert t[k - 1] == s[k];
    assert t[k..] == s[k + 1..];
    if k > 1 {
      UnpaddedRun(t);
    } else {
      assert SpaceRun(t) == 0 && !CommaAfterRun(t);
    }
  }

  /** The left-to-right replacement agrees with the reference definition. */
  lemma {:induction false} FixCommasIsUnpadded(s: string)
    ensures FixCommas(s) == Unpadded(s)
    decreases |s|
  {
    if s != [] {
      if CommaAfterRun(s) {
        UnpaddedRun(s);
        FixCommasIsUnpadded(s[SpaceRun(s) + 1..]);
      } else {
        FixCommasIsUnpadded(s[1..]);
      }
    }
  }

  /** The fix keeps a final character that is not whitespace. */
  lemma {:induction false} FixCommasKeepsLast(s: string)
    requires s != [] && !IsSpace(s[|s| - 1])
    ensures FixCommas(s) != [] && FixCommas(s)[|FixCommas(s)| - 1] == s[|s| - 1]
    decreases |s|
  {
    var k := SpaceRun(s);
    if CommaAfterRun(s) {
      var t := s[k + 1..];
      assert FixCommas(s) == [','] + FixCommas(t);
      if t != [] {
        assert t[|t| - 1] == s[|s| - 1];
        FixCommasKeepsLast(t);
      } else {
        assert k == |s| - 1;
      }
    } else {
      var t := s[1..];
      assert FixCommas(s) == [s[0]] + FixCommas(t);
      if t != [] {
        assert t[|t| - 1] == s[|s| - 1];
        FixCommasKeepsLast(t);
      }
    }
  }

  // ---------------------------------------------------------------------------
  // The end-of-text rewrite `text.replace(/\n+$/, '\n')`.

  function DropTrailingNewlines(s: string): (r: string)
    ensures |r| <= |s| && r == s[..|r|]
    ensures r == [] || r[|r| - 1] != '\n'
    ensures forall k :: |r| <= k < |s| ==> s[k] == '\n'
  {
    if s != [] && s[|s| - 1] == '\n' then DropTrailingNewlines(s[..|s| - 1]) else s
  }

  /** The last run of '\n' (the leftmost match of `\n+$`) becomes a single '\n'. */
  function CollapseTrailingNewlines(s: string): (r: string)
    ensures s == [] || s[|s| - 1] != '\n' ==> r == s
    ensures s != [] && s[|s| - 1] == '\n' ==>
      && r != [] && r[|r| - 1] == '\n'
      && (|r| == 1 || r[|r| - 2] != '\n')
      && |r| <= |s| && r[..|r| - 1] == s[..|r| - 1]
      && forall k :: |r| - 1 <= k < |s| ==> s[k] == '\n'
  {
    if s != [] && s[|s| - 1] == '\n' then DropTrailingNewlines(s) + "\n" else s
  }

  // ---------------------------------------------------------------------------
  // Well-formed playlists: a header and channel records, each an `#EXTINF:`
  // line followed by its stream address.

  datatype Channel = Channel(info: string, address: string)

  /** Two lines: the info line starts with the tag; the address starts with
      text that is not a comment. */
  predicate IsChannel(c: Channel) {
    StartsWith(c.info, InfoTag) && c.address != [] && !IsSpace(c.address[0]) && c.address[0] != '#' &&
    '\n' !in c.info && '\n' !in c.address
  }

  function ChannelLines(cs: seq<Channel>): (lines: seq<string>)
    ensures |lines| == 2 * |cs|
  {
    if cs == [] then [] else [cs[0].info, cs[0].address] + ChannelLines(cs[1..])
  }

  /** How each filter sees the two lines of a well-formed channel. */
  lemma ChannelSeen(c: Channel)
    requires IsChannel(c)
    ensures IsInfo(c.info) && !IsHeader(c.info) && StartsWith(TrimEnd(c.info), InfoTag)
    ensures !IsInfo(c.address)
    ensures TrimEnd(c.address) != [] && !StartsWith(TrimEnd(c.address), "#")
  {
    InfoTagSeen(c.info);
    var a := c.address;
    TrimKeepsPrefix(a, [a[0]]);
    assert Trim(a)[0] == a[0] && TrimEnd(a)[0] == a[0];
  }

  /** The lines of well-formed channels hold no newline. */
  lemma {:induction false} ChannelLinesOneLine(cs: seq<Channel>)
    requires forall k :: 0 <= k < |cs| ==> IsChannel(cs[k])
    ensures forall k :: 0 <= k < |ChannelLines(cs)| ==> '\n' !in ChannelLines(cs)[k]
    decreases |cs|
  {
    if cs != [] {
      ChannelLinesOneLine(cs[1..]);
      assert IsChannel(cs[0]);
      assert ChannelLines(cs) == [cs[0].info, cs[0].address] + ChannelLines(cs[1..]);
    }
  }

  /** The first channel of a run and the lines after it. */
  lemma ChannelLinesCons(lines: seq<string>, j: nat, cs: seq<Channel>, tail: seq<string>)
    requires j <= |lines| && lines[j..] == ChannelLines(cs) + tail && cs != []
    ensures j + 1 < |lines| && lines[j] == cs[0].info && lines[j + 1] == cs[0].address
    ensures lines[j + 2..] == ChannelLines(cs[1..]) + tail
  {
    var rest := lines[j..];
    assert rest == [cs[0].info, cs[0].address] + (ChannelLines(cs[1..]) + tail);
    assert lines[j + 2..] == rest[2..];
  }

  /** The text of an optional header and well-formed channels, each line
      ended by a newline, splits into those lines and a final empty piece. */
  lemma PlaylistLines(head: seq<string>, cs: seq<Channel>)
    requires head == [] || (|head| == 1 && '\n' !in head[0])
    requires head != [] || cs != []
    requires forall k :: 0 <= k < |cs| ==> IsChannel(cs[k])
    ensures Split(Join(head + ChannelLines(cs)) + "\n") == head + ChannelLines(cs) + [[]]
  {
    var ls := head + ChannelLines(cs);
    ChannelLinesOneLine(cs);
    assert forall k :: 0 <= k < |ls| ==> '\n' !in ls[k] by {
      forall k | 0 <= k < |ls| ensures '\n' !in ls[k] {
        if k >= |head| {
          assert ls[k] == ChannelLines(cs)[k - |head|];
        }
      }
    }
    SplitTerminated(ls);
  }

  /** The channels whose `#EXTINF:` line a rule `drop` keeps, in order. */
  function Survivors(cs: seq<Channel>, drop: string -> bool): (r: seq<Channel>)
    ensures |r| <= |cs|
  {
    if cs == [] then []
    else (if drop(cs[0].info) then [] else [cs[0]]) + Survivors(cs[1..], drop)
  }

  // ---------------------------------------------------------------------------
  // A one-attribute `#EXTINF:` line, used to show what the comma fix does to
  // a group value.

  /** Text without whitespace or quotes. */
  predicate Plain(s: string) {
    forall k :: 0 <= k < |s| ==> !IsSpace(s[k]) && !IsQuote(s[k])
  }

  const Opening := InfoTag + GroupAttr + "\""

  /** The line `#EXTINF:group-title="<v>"`. */
  function Tagged(v: string): string {
    Opening + v + "\""
  }

  /** Its group value is `v`, found by both scanners, and it is an
      `#EXTINF:` line. */
  lemma TaggedFacts(v: string)
    requires forall k :: 0 <= k < |v| ==> !IsQuote(v[k])
    ensures GroupTitle(Tagged(v), true) == Some(v)
    ensures v != [] ==> GroupTitle(Tagged(v), false) == Some(v)
    ensures IsInfo(Tagged(v)) && !IsHeader(Tagged(v))
  {
    assert forall k :: 0 <= k < |InfoTag| ==> InfoTag[k] != 'g' && InfoTag[k] != 'G';
    GroupTitleOf(InfoTag, v, "", true);
    if v != [] {
      GroupTitleOf(InfoTag, v, "", false);
    }
    assert Tagged(v) == InfoTag + GroupAttr + "\"" + v + "\"" + "";
    TaggedIsInfo(v);
  }

  lemma TaggedIsInfo(v: string)
    ensures IsInfo(Tagged(v)) && !IsHeader(Tagged(v))
    ensures StartsWith(Tagged(v), InfoTag)
  {
    Regroup(InfoTag, GroupAttr + "\"", v, "\"", []);
    StartsWithConcat(InfoTag, GroupAttr + "\"" + v + "\"");
    InfoTagSeen(Tagged(v));
  }

  /** The comma fix turns the group value `a ,b` into `a,b`. */
  lemma TaggedFix(a: string, b: string)
    requires Plain(a) && Plain(b)
    ensures FixCommas(Tagged(a + " ," + b)) == Tagged(a + "," + b)
  {
    var p := Opening + a;
    assert forall k :: 0 <= k < |p| ==> !IsSpace(p[k]) by {
      forall k | 0 <= k < |p| ensures !IsSpace(p[k]) {
        if k >= |Opening| {
          assert p[k] == a[k - |Opening|];
        }
      }
    }
    assert NoSpaceBeforeComma(b + "\"");
    FixOneGap(p, b + "\"");
    Regroup(Opening, a, " ,", b, "\"");
    Regroup(Opening, a, ",", b, "\"");
  }
}
