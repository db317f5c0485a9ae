/** `parseTags`: the global match of `#[\wÀ-ſ]+` against a note's raw
    tags string, returning the matched substrings in order (an empty list when
    nothing matches). The match is modelled as a left-to-right scanner that
    produces the spans of the matches; the tags are the text of those spans. */
module Tags {

  /** One character of a tag body: `\w` (without the `u` flag, so ASCII letters,
      digits and `_`) or a Latin-1 Supplement / Latin Extended-A letter
      U+00C0..U+017F. */
  predicate IsTagChar(c: char) {
    ('A' <= c <= 'Z') || ('a' <= c <= 'z') || ('0' <= c <= '9') || c == '_' ||
    (0xC0 <= c as int <= 0x17F)
  }

  /** A match of the pattern begins at `p`: a `#` followed by at least one tag
      character. */
  predicate StartsTag(s: string, p: int) {
    0 <= p && p + 1 < |s| && s[p] == '#' && IsTagChar(s[p + 1])
  }

  /** The half-open range `[start, end)` of one match in the scanned string. */
  datatype Span = Span(start: nat, end: nat)

  /** The greedy `+`: the first index at or after `j` that is not a tag
      character (or the end of the string). */
  function RunEnd(s: string, j: nat): (e: nat)
    requires j <= |s|
    ensures j <= e <= |s|
    ensures forall k :: j <= k < e ==> IsTagChar(s[k])
    ensures e == |s| || !IsTagChar(s[e])
    decreases |s| - j
  {
    if j < |s| && IsTagChar(s[j]) then RunEnd(s, j + 1) else j
  }

  /** A span is one maximal match: it starts a tag and runs to the end of
      that tag's characters. */
  predicate IsMaximalMatch(s: string, sp: Span) {
    StartsTag(s, sp.start) && sp.end == RunEnd(s, sp.start + 1)
  }

  /** The spans lie within `[lo, |s|]`, each is well formed, and each ends at or
      before the next begins. */
  predicate OrderedWithin(s: string, lo: nat, spans: seq<Span>) {
    && (forall k :: 0 <= k < |spans| ==> lo <= spans[k].start < spans[k].end <= |s|)
    && (forall k :: 0 <= k < |spans| - 1 ==> spans[k].end <= spans[k + 1].start)
  }

  function Starts(spans: seq<Span>): set<nat> {
    set k | 0 <= k < |spans| :: spans[k].start
  }

  /** The global regular-expression match from index `i` on: where a tag
      starts, take it whole and resume after it; elsewhere move on by one. */
  function Scan(s: string, i: nat): (spans: seq<Span>)
    requires i <= |s|
    decreases |s| - i
  {
    if i == |s| then []
    else if StartsTag(s, i) then
      var e := RunEnd(s, i + 1);
      [Span(i, e)] + Scan(s, e)
    else Scan(s, i + 1)
  }

  /** The spans come out in order of appearance and do not overlap. */
  lemma {:induction false} ScanOrdered(s: string, i: nat)
    requires i <= |s|
    ensures OrderedWithin(s, i, Scan(s, i))
    decreases |s| - i
  {
    if i == |s| {
    } else if StartsTag(s, i) {
      var e := RunEnd(s, i + 1);
      ScanOrdered(s, e);
      var rest := Scan(s, e);
      assert Scan(s, i) == [Span(i, e)] + rest;
      assert rest != [] ==> e <= rest[0].start;
    } else {
      ScanOrdered(s, i + 1);
    }
  }

  /** Every span the scanner returns is a maximal match. */
  lemma {:induction false} ScanSound(s: string, i: nat)
    requires i <= |s|
    ensures forall k :: 0 <= k < |Scan(s, i)| ==> IsMaximalMatch(s, Scan(s, i)[k])
    decreases |s| - i
  {
    if i == |s| {
    } else if StartsTag(s, i) {
      ScanSound(s, RunEnd(s, i + 1));
    } else {
      ScanSound(s, i + 1);
    }
  }

  /** The scanner misses no match and invents none: from `i` on, a position
      begins a returned span exactly when a tag starts there. */
  lemma {:induction false} ScanComplete(s: string, i: nat)
    requires i <= |s|
    ensures forall p :: i <= p < |s| ==> (StartsTag(s, p) <==> p in Starts(Scan(s, i)))
    decreases |s| - i
  {
    var spans := Scan(s, i);
    if i == |s| {
    } else if StartsTag(s, i) {
      var e := RunEnd(s, i + 1);
      var rest := Scan(s, e);
      ScanComplete(s, e);
      ScanOrdered(s, e);
      assert spans == [Span(i, e)] + rest;
      assert Starts(spans) == {i} + Starts(rest) by {
        forall p | p in Starts(spans) ensures p in {i} + Starts(rest) {
          var k :| 0 <= k < |spans| && spans[k].start == p;
          if k > 0 { assert rest[k - 1].start == p; }
        }
        forall p | p in Starts(rest) ensures p in Starts(spans) {
          var k :| 0 <= k < |rest| && rest[k].start == p;
          assert spans[k + 1].start == p;
        }
        assert spans[0].start == i;
      }
      forall p | i < p < e
        ensures !StartsTag(s, p) && p !in Starts(rest)
      {
        assert IsTagChar(s[p]);
      }
    } else {
      ScanComplete(s, i + 1);
      ScanOrdered(s, i + 1);
    }
  }

  /** The text of each span, in order. */
  function Texts(s: string, spans: seq<Span>): seq<string>
    requires forall k :: 0 <= k < |spans| ==> spans[k].start <= spans[k].end <= |s|
  {
    seq(|spans|, k requires 0 <= k < |spans| => s[spans[k].start..spans[k].end])
  }

  /** `tagsString.match(/#[\wÀ-ſ]+/g) || []`. */
  function ParseTags(s: string): (r: seq<string>)
    ensures |r| == |Scan(s, 0)|
    ensures forall k :: 0 <= k < |r| ==> IsTag(r[k])
  {
    ScanOrdered(s, 0);
    ScanSound(s, 0);
    Texts(s, Scan(s, 0))
  }

  /** A well-formed tag: `#` followed by one or more tag characters. */
  predicate IsTag(t: string) {
    |t| >= 2 && t[0] == '#' && forall k :: 1 <= k < |t| ==> IsTagChar(t[k])
  }

  /** Every tag returned is a well-formed tag and a contiguous, maximal piece of
      the input: it cannot be extended by a following tag character. */
  lemma ParseTagsShape(s: string)
    ensures forall k :: 0 <= k < |ParseTags(s)| ==>
      var sp := Scan(s, 0)[k];
      && sp.start < sp.end <= |s|
      && IsTag(ParseTags(s)[k])
      && ParseTags(s)[k] == s[sp.start..sp.end]
      && (sp.end == |s| || !IsTagChar(s[sp.end]))
  {
    ScanSound(s, 0);
    ScanOrdered(s, 0);
  }

  /** The list is empty exactly when no `#` in the input is followed by a tag
      character. */
  lemma ParseTagsEmptyIff(s: string)
    ensures ParseTags(s) == [] <==> forall p :: 0 <= p < |s| ==> !StartsTag(s, p)
  {
    ScanComplete(s, 0);
    ScanOrdered(s, 0);
    if Scan(s, 0) != [] {
      assert Scan(s, 0)[0].start in Starts(Scan(s, 0));
    }
  }

  /** Running the greedy run from `|pre| + j` in `pre + s` is running it from
      `j` in `s`, shifted: nothing before the start is looked at. */
  lemma {:induction false} RunEndShift(pre: string, s: string, j: nat)
    requires j <= |s|
    ensures RunEnd(pre + s, |pre| + j) == |pre| + RunEnd(s, j)
    decreases |s| - j
  {
    if j < |s| {
      assert (pre + s)[|pre| + j] == s[j];
      if IsTagChar(s[j]) {
        RunEndShift(pre, s, j + 1);
      }
    }
  }

  function Shifted(spans: seq<Span>, d: nat): seq<Span>
  {
    seq(|spans|, k requires 0 <= k < |spans| => Span(spans[k].start + d, spans[k].end + d))
  }

  lemma ShiftedCons(sp: Span, spans: seq<Span>, d: nat)
    ensures Shifted([sp] + spans, d) == [Span(sp.start + d, sp.end + d)] + Shifted(spans, d)
  {
  }

  /** The scanner does not look behind its position, so a prefix only shifts
      the spans it returns. */
  lemma {:induction false} ScanShift(pre: string, s: string, i: nat)
    requires i <= |s|
    ensures Scan(pre + s, |pre| + i) == Shifted(Scan(s, i), |pre|)
    decreases |s| - i
  {
    var t := pre + s;
    var d := |pre|;
    if i == |s| {
      assert Scan(s, i) == [];
      assert Scan(t, d + i) == [];
    } else {
      assert t[d + i] == s[i];
      if i + 1 < |s| { assert t[d + i + 1] == s[i + 1]; }
      assert StartsTag(t, d + i) == StartsTag(s, i);
      if StartsTag(s, i) {
        var e := RunEnd(s, i + 1);
        RunEndShift(pre, s, i + 1);
        ScanShift(pre, s, e);
        assert Scan(s, i) == [Span(i, e)] + Scan(s, e);
        assert Scan(t, d + i) == [Span(d + i, d + e)] + Scan(t, d + e);
        ShiftedCons(Span(i, e), Scan(s, e), d);
      } else {
        ScanShift(pre, s, i + 1);
        assert Scan(s, i) == Scan(s, i + 1);
        assert Scan(t, d + i) == Scan(t, d + i + 1);
      }
    }
  }

  /** The tags joined with single spaces, as a user types them. */
  function JoinTags(ts: seq<string>): string {
    if |ts| == 0 then []
    else if |ts| == 1 then ts[0]
    else ts[0] + " " + JoinTags(ts[1..])
  }

  /** A well-formed tag at the front, followed by nothing or by a character
      that is not a tag character, is the first match, and scanning goes on
      right after it. */
  lemma ScanLeadingTag(t: string, rest: string)
    requires IsTag(t)
    requires rest == [] || !IsTagChar(rest[0])
    ensures Scan(t + rest, 0) == [Span(0, |t|)] + Scan(t + rest, |t|)
  {
    var s := t + rest;
    assert StartsTag(s, 0) by { assert s[0] == t[0] && s[1] == t[1]; }
    TagRunEnd(t, rest);
    ScanAtTag(s, 0);
  }

  lemma TagRunEnd(t: string, rest: string)
    requires IsTag(t)
    requires rest == [] || !IsTagChar(rest[0])
    ensures RunEnd(t + rest, 1) == |t|
  {
    var s := t + rest;
    forall k | 1 <= k < |t| ensures IsTagChar(s[k]) {
      assert s[k] == t[k];
    }
    if rest != [] {
      assert s[|t|] == rest[0];
    }
    RunEndAt(s, 1, |t|);
  }

  /** The greedy run from `j` ends at `e` when everything in between is a tag
      character and `e` is the end or holds something else. */
  lemma RunEndAt(s: string, j: nat, e: nat)
    requires j <= e <= |s|
    requires forall k :: j <= k < e ==> IsTagChar(s[k])
    requires e == |s| || !IsTagChar(s[e])
    ensures RunEnd(s, j) == e
  {
  }

  lemma ScanAtTag(s: string, i: nat)
    requires i <= |s| && StartsTag(s, i)
    ensures Scan(s, i) == [Span(i, RunEnd(s, i + 1))] + Scan(s, RunEnd(s, i + 1))
  {
  }

  /** A lone well-formed tag parses to itself. */
  lemma ParseSingleTag(t: string)
    requires IsTag(t)
    ensures ParseTags(t) == [t]
  {
    ScanLeadingTag(t, []);
    assert t + [] == t;
    assert Scan(t, |t|) == [];
    assert t[0..|t|] == t;
  }

  /** A well-formed tag, a space, then anything: the tag is the first match
      and the rest's matches follow, shifted past the tag and the space. */
  lemma ScanTagThenRest(t: string, j: string)
    requires IsTag(t)
    ensures Scan(t + " " + j, 0) == [Span(0, |t|)] + Shifted(Scan(j, 0), |t| + 1)
  {
    var pre := t + " ";
    var s := pre + j;
    assert s == t + (" " + j);
    ScanLeadingTag(t, " " + j);
    assert Scan(s, |t|) == Scan(s, |pre|) by { assert s[|t|] == ' '; }
    ScanShift(pre, j, 0);
  }

  /** Every span is well formed and lies within `s`. */
  predicate InBounds(s: string, spans: seq<Span>) {
    forall k :: 0 <= k < |spans| ==> spans[k].start <= spans[k].end <= |s|
  }

  /** The texts of a leading span followed by more spans. */
  lemma TextsCons(s: string, sp: Span, spans: seq<Span>)
    requires sp.start <= sp.end <= |s|
    requires forall k :: 0 <= k < |spans| ==> spans[k].start <= spans[k].end <= |s|
    ensures Texts(s, [sp] + spans) == [s[sp.start..sp.end]] + Texts(s, spans)
  {
  }

  /** Spans of `s` shifted past a prefix pick the same texts out of `pre + s`. */
  lemma TextsShifted(pre: string, s: string, spans: seq<Span>)
    requires forall k :: 0 <= k < |spans| ==> spans[k].start <= spans[k].end <= |s|
    ensures Texts(pre + s, Shifted(spans, |pre|)) == Texts(s, spans)
  {
    var t := pre + s;
    forall k | 0 <= k < |spans|
      ensures t[spans[k].start + |pre|..spans[k].end + |pre|] == s[spans[k].start..spans[k].end]
    {
    }
  }

  /** The tag's span, then spans of `j` shifted past the tag and the space,
      pick out the tag and then the texts of those spans in `j`. */
  lemma TextsTagThenRest(t: string, j: string, spans: seq<Span>)
    requires IsTag(t)
    requires forall k :: 0 <= k < |spans| ==> spans[k].start <= spans[k].end <= |j|
    ensures InBounds(t + " " + j, [Span(0, |t|)] + Shifted(spans, |t| + 1))
    ensures Texts(t + " " + j, [Span(0, |t|)] + Shifted(spans, |t| + 1)) == [t] + Texts(j, spans)
  {
    var pre := t + " ";
    var s := pre + j;
    var shifted := Shifted(spans, |pre|);
    TextsCons(s, Span(0, |t|), shifted);
    TextsShifted(pre, j, spans);
    assert s[0..|t|] == t;
  }

  /** A well-formed tag, a space, then anything: the tag comes first and the
      rest parses as it would alone. */
  lemma ParseTagThenRest(t: string, j: string)
    requires IsTag(t)
    ensures ParseTags(t + " " + j) == [t] + ParseTags(j)
  {
    ScanTagThenRest(t, j);
    ScanOrdered(j, 0);
    TextsTagThenRest(t, j, Scan(j, 0));
  }

  /** Extracting tags from already-extracted tags re-joined gives back exactly
      those tags, duplicates included and in the same order: extraction adds
      nothing spurious and drops nothing. */
  lemma {:induction false} ParseJoinedTags(ts: seq<string>)
    requires forall k :: 0 <= k < |ts| ==> IsTag(ts[k])
    ensures ParseTags(JoinTags(ts)) == ts
  {
    if |ts| == 0 {
      assert Scan([], 0) == [];
    } else if |ts| == 1 {
      ParseSingleTag(ts[0]);
    } else {
      ParseTagThenRest(ts[0], JoinTags(ts[1..]));
      ParseJoinedTags(ts[1..]);
      assert ts == [ts[0]] + ts[1..];
    }
  }

  /** "#home #urgent #home" yields its three tags in order, the repeated
      one twice. */
  lemma ParseExample()
    ensures ParseTags("#home #urgent #home") == ["#home", "#urgent", "#home"]
  {
    var ts := ["#home", "#urgent", "#home"];
    assert IsTag("#home") && IsTag("#urgent");
    assert JoinTags(ts[2..]) == "#home";
    assert JoinTags(ts[1..]) == "#urgent #home";
    assert JoinTags(ts) == "#home #urgent #home";
    ParseJoinedTags(ts);
  }
}
