/**
  The reply segmenter of the chat view (`parseMessageSegments`): a model reply
  is split into ordered plain-text and fenced-code segments.

  A code fence is what the global regular expression
  ```` /```([a-zA-Z0-9\-_]*)\n([\s\S]*?)```/g ```` matches: three backticks, a
  language tag drawn from letters, digits, `-` and `_`, a newline, the shortest
  body, and three closing backticks. The regular expression is replaced by a
  deterministic matcher (`MatchAt`, anchored at one position, and `FindFrom`,
  the leftmost match at or after a position), which is proved to agree with a
  declarative reading of the expression (`RegexMatch`).
 */
module Segments {
  import opened Common

  /** One segment of a rendered reply; `lang` is absent for an untagged fence. */
  datatype Segment = Text(value: string) | Code(lang: Option<string>, value: string)

  /** The character class `[a-zA-Z0-9\-_]` of the language tag. */
  predicate IsLangChar(c: char) {
    ('a' <= c <= 'z') || ('A' <= c <= 'Z') || ('0' <= c <= '9') || c == '-' || c == '_'
  }

  /** Every character of `t` is a tag character. */
  predicate IsTag(t: string) {
    forall k :: 0 <= k < |t| ==> IsLangChar(t[k])
  }

  /** Three backticks start at index `p` of `s`. */
  predicate FenceAt(s: string, p: int) {
    0 <= p && p + 3 <= |s| && s[p] == '`' && s[p + 1] == '`' && s[p + 2] == '`'
  }

  /** The string "```" the fallback branch looks for. */
  const Backticks: string := "```"

  /**
    The declarative reading of the regular expression matching at `p`: the
    opening fence at `p`, the tag `s[p+3..q]`, the newline at `q`, the body
    `s[q+1..b]` and the closing fence at `b`. Laziness of `*?` is the last
    conjunct: no closing fence starts inside the body.
   */
  predicate RegexMatch(s: string, p: nat, q: nat, b: nat) {
    && FenceAt(s, p)
    && p + 3 <= q < b
    && FenceAt(s, b)
    && (forall k :: p + 3 <= k < q ==> IsLangChar(s[k]))
    && s[q] == '\n'
    && (forall k :: q + 1 <= k < b ==> !FenceAt(s, k))
  }

  /**
    One match, by position: the opening fence at `start`, the newline that ends
    the tag at `tagEnd`, and the closing fence at `close`.
   */
  datatype Match = Match(start: nat, tagEnd: nat, close: nat) {
    /** Where the match ends (exclusive), which becomes the regex's `lastIndex`. */
    function End(): nat {
      close + 3
    }
  }

  /** The positions of `m` are in order and its closing fence lies inside `s`. */
  predicate Fits(s: string, m: Match) {
    m.start + 3 <= m.tagEnd < m.close && m.close + 3 <= |s|
  }

  /** The captured language tag, `match[1]`. */
  function Lang(s: string, m: Match): string
    requires Fits(s, m)
  {
    s[m.start + 3..m.tagEnd]
  }

  /** The captured body, `match[2]`. */
  function Body(s: string, m: Match): string
    requires Fits(s, m)
  {
    s[m.tagEnd + 1..m.close]
  }

  /** The end of the longest run of tag characters starting at `i` (greedy `*`). */
  function TagEnd(s: string, i: nat): (q: nat)
    requires i <= |s|
    ensures i <= q <= |s|
    ensures forall k :: i <= k < q ==> IsLangChar(s[k])
    ensures q == |s| || !IsLangChar(s[q])
    decreases |s| - i
  {
    if i < |s| && IsLangChar(s[i]) then TagEnd(s, i + 1) else i
  }

  /** The first fence at or after `i` (lazy `*?`). */
  function NextFence(s: string, i: nat): (r: Option<nat>)
    requires i <= |s|
    ensures r.Some? ==> i <= r.value && FenceAt(s, r.value)
    ensures r.Some? ==> forall k :: i <= k < r.value ==> !FenceAt(s, k)
    ensures r.None? ==> forall k :: i <= k ==> !FenceAt(s, k)
    decreases |s| - i
  {
    if FenceAt(s, i) then Some(i)
    else if i + 3 >= |s| then None
    else NextFence(s, i + 1)
  }

  /** The regular expression anchored at `p`: a match starts at `p` and fits in `s`. */
  function MatchAt(s: string, p: nat): (r: Option<Match>)
    requires p <= |s|
    ensures r.Some? ==> r.value.start == p && Fits(s, r.value)
  {
    if !FenceAt(s, p) then None
    else
      var q := TagEnd(s, p + 3);
      if q == |s| || s[q] != '\n' then None
      else
        match NextFence(s, q + 1)
        case None => None
        case Some(b) => Some(Match(p, q, b))
  }

  /** What the anchored matcher finds is a genuine regex match. */
  lemma MatchAtSound(s: string, p: nat)
    requires p <= |s| && MatchAt(s, p).Some?
    ensures var m := MatchAt(s, p).value; RegexMatch(s, p, m.tagEnd, m.close)
  {
  }

  /** The anchored matcher misses no regex match, so a match at `p` is unique. */
  lemma MatchAtComplete(s: string, p: nat, q: nat, b: nat)
    requires RegexMatch(s, p, q, b)
    ensures MatchAt(s, p) == Some(Match(p, q, b))
  {
  }

  /** The leftmost match at or after `i`: what `exec` of the global regex returns from `lastIndex == i`. */
  function FindFrom(s: string, i: nat): (r: Option<Match>)
    requires i <= |s|
    ensures r.Some? ==> i <= r.value.start && Fits(s, r.value)
    decreases |s| - i
  {
    var m := MatchAt(s, i);
    if m.Some? then m
    else if i == |s| then None
    else FindFrom(s, i + 1)
  }

  /**
    What `FindFrom` returns is the match at its start, and the expression
    matches nowhere between `i` and that start (nowhere at all when nothing
    is found).
   */
  lemma {:induction false} FindFromFirst(s: string, i: nat)
    requires i <= |s|
    ensures var r := FindFrom(s, i); r.Some? ==> MatchAt(s, r.value.start) == r
    ensures var r := FindFrom(s, i); r.Some? ==> forall p :: i <= p < r.value.start ==> MatchAt(s, p).None?
    ensures FindFrom(s, i).None? ==> forall p :: i <= p <= |s| ==> MatchAt(s, p).None?
    decreases |s| - i
  {
    if MatchAt(s, i).None? && i < |s| {
      assert FindFrom(s, i) == FindFrom(s, i + 1);
      FindFromFirst(s, i + 1);
    }
  }

  /**
    `FindFrom` is the leftmost regex match: whenever the expression matches at
    some position at or after `i`, a match is found, and it starts no later.
   */
  lemma FindFromLeftmost(s: string, i: nat)
    requires i <= |s|
    ensures forall p: nat, q: nat, b: nat :: i <= p && RegexMatch(s, p, q, b) ==>
      FindFrom(s, i).Some? && FindFrom(s, i).value.start <= p
  {
    forall p: nat, q: nat, b: nat | i <= p && RegexMatch(s, p, q, b)
      ensures FindFrom(s, i).Some? && FindFrom(s, i).value.start <= p
    {
      MatchAtComplete(s, p, q, b);
      FindFromFirst(s, i);
    }
  }

  /**
    A span of the input as the loop of `parseMessageSegments` sees it: a gap of
    plain text `s[from..to]` between matches, or one match.
   */
  datatype Span = Gap(from: nat, to: nat) | Hit(m: Match) {
    function Start(): nat {
      if Gap? then from else m.start
    }
    function End(): nat {
      if Gap? then to else m.End()
    }
  }

  /** A span is non-empty and lies inside `s`. */
  predicate WellPlaced(s: string, sp: Span) {
    match sp
    case Gap(from, to) => from < to <= |s|
    case Hit(m) => Fits(s, m)
  }

  /** Every span is well placed. */
  predicate AllPlaced(s: string, spans: seq<Span>) {
    forall i :: 0 <= i < |spans| ==> WellPlaced(s, spans[i])
  }

  /**
    A span is well placed; a gap contains no position where the regex
    matches, and a hit is the match found at its start.
   */
  predicate ValidSpan(s: string, sp: Span) {
    && WellPlaced(s, sp)
    && match sp
       case Gap(from, to) => forall p :: from <= p < to ==> MatchAt(s, p).None?
       case Hit(m) => MatchAt(s, m.start) == Some(m)
  }

  /** The spans cover `s[last..]` in order, with no gaps and no overlaps. */
  predicate Tiles(s: string, last: nat, spans: seq<Span>) {
    && (|spans| == 0 ==> last == |s|)
    && (|spans| > 0 ==> spans[0].Start() == last && spans[|spans| - 1].End() == |s|)
    && (forall i, j :: 0 <= i && j == i + 1 < |spans| ==> spans[i].End() == spans[j].Start())
  }

  /** A gap is never followed by another gap. */
  predicate NoAdjacentGaps(spans: seq<Span>) {
    forall i, j :: 0 <= i && j == i + 1 < |spans| ==> spans[i].Gap? ==> spans[j].Hit?
  }

  /**
    The loop of `parseMessageSegments` from `lastIndex == last`: each leftmost
    match contributes the gap before it (when non-empty) and itself; the text
    after the last match is a final gap.
   */
  function Scan(s: string, last: nat): (r: seq<Span>)
    requires last <= |s|
    ensures Tiles(s, last, r)
    ensures AllPlaced(s, r)
    ensures NoAdjacentGaps(r)
    decreases |s| - last
  {
    match FindFrom(s, last)
    case None =>
      if last < |s| then [Gap(last, |s|)] else []
    case Some(m) =>
      var rest := Scan(s, m.End());
      ConsSpan(s, Hit(m), rest);
      if m.start > last then
        ConsSpan(s, Gap(last, m.start), [Hit(m)] + rest);
        [Gap(last, m.start)] + ([Hit(m)] + rest)
      else
        [Hit(m)] + rest
  }

  /** Putting a well-placed span in front of a tiling of the rest of the input tiles from the span's start. */
  lemma ConsSpan(s: string, sp: Span, rest: seq<Span>)
    requires WellPlaced(s, sp) && Tiles(s, sp.End(), rest)
    requires AllPlaced(s, rest)
    requires NoAdjacentGaps(rest)
    requires sp.Gap? && rest != [] ==> rest[0].Hit?
    ensures Tiles(s, sp.Start(), [sp] + rest)
    ensures AllPlaced(s, [sp] + rest)
    ensures NoAdjacentGaps([sp] + rest)
  {
    ConsPlaced(s, sp, rest);
    ConsTiles(s, sp, rest);
    ConsNoAdjacentGaps(sp, rest);
  }

  /** Well-placed spans stay so after a well-placed span is put in front. */
  lemma ConsPlaced(s: string, sp: Span, rest: seq<Span>)
    requires WellPlaced(s, sp)
    requires AllPlaced(s, rest)
    ensures AllPlaced(s, [sp] + rest)
  {
    var r := [sp] + rest;
    forall i | 0 <= i < |r| ensures WellPlaced(s, r[i]) {
      if i > 0 { assert r[i] == rest[i - 1]; }
    }
  }

  /** Valid spans stay valid after a valid span is put in front. */
  lemma ConsValid(s: string, sp: Span, rest: seq<Span>)
    requires ValidSpan(s, sp)
    requires forall i :: 0 <= i < |rest| ==> ValidSpan(s, rest[i])
    ensures forall i :: 0 <= i < |[sp] + rest| ==> ValidSpan(s, ([sp] + rest)[i])
  {
    var r := [sp] + rest;
    forall i | 0 <= i < |r| ensures ValidSpan(s, r[i]) {
      if i > 0 { assert r[i] == rest[i - 1]; }
    }
  }

  /** Every span of the scan is valid: a gap holds no match, and a hit is the match at its start. */
  lemma {:induction false} ScanValid(s: string, last: nat)
    requires last <= |s|
    ensures forall i :: 0 <= i < |Scan(s, last)| ==> ValidSpan(s, Scan(s, last)[i])
    decreases |s| - last
  {
    FindFromFirst(s, last);
    match FindFrom(s, last)
    case None =>
    case Some(m) =>
      var rest := Scan(s, m.End());
      ScanValid(s, m.End());
      ConsValid(s, Hit(m), rest);
      if m.start > last {
        ConsValid(s, Gap(last, m.start), [Hit(m)] + rest);
      }
  }

  /** A span ending where a tiling starts extends the tiling. */
  lemma ConsTiles(s: string, sp: Span, rest: seq<Span>)
    requires Tiles(s, sp.End(), rest)
    ensures Tiles(s, sp.Start(), [sp] + rest)
  {
    var r := [sp] + rest;
    forall i, j | 0 <= i && j == i + 1 < |r| ensures r[i].End() == r[j].Start() {
      if i > 0 { assert r[i] == rest[i - 1] && r[j] == rest[j - 1]; }
    }
  }

  /** A gap put in front of spans starting with a hit creates no adjacent gaps. */
  lemma ConsNoAdjacentGaps(sp: Span, rest: seq<Span>)
    requires NoAdjacentGaps(rest)
    requires sp.Gap? && rest != [] ==> rest[0].Hit?
    ensures NoAdjacentGaps([sp] + rest)
  {
    var r := [sp] + rest;
    forall i, j | 0 <= i && j == i + 1 < |r| ensures r[i].Gap? ==> r[j].Hit? {
      if i > 0 { assert r[i] == rest[i - 1] && r[j] == rest[j - 1]; }
    }
  }

  /** The code segment of a match: `match[1] || undefined` and the body less one trailing newline. */
  function CodeOf(s: string, m: Match): Segment
    requires Fits(s, m)
  {
    Code(if Lang(s, m) == "" then None else Some(Lang(s, m)), DropTrailingNewline(Body(s, m)))
  }

  /** The segment a span renders as. */
  function SegmentOf(s: string, sp: Span): Segment
    requires WellPlaced(s, sp)
  {
    match sp
    case Gap(from, to) => Text(s[from..to])
    case Hit(m) => CodeOf(s, m)
  }

  /** `codeContent.substring(0, length - 1)` when the body ends with a newline. */
  function DropTrailingNewline(body: string): (r: string)
    ensures body == r || body == r + "\n"
    ensures body == r + "\n" <==> |body| > 0 && body[|body| - 1] == '\n'
  {
    if |body| > 0 && body[|body| - 1] == '\n' then body[..|body| - 1] else body
  }

  /** The segments the spans render as, in order. */
  function Render(s: string, spans: seq<Span>): (r: seq<Segment>)
    requires AllPlaced(s, spans)
    ensures |r| == |spans|
  {
    if spans == [] then [] else [SegmentOf(s, spans[0])] + Render(s, spans[1..])
  }

  /** Each segment is the rendering of the span at the same position. */
  lemma {:induction false} RenderAt(s: string, spans: seq<Span>)
    requires AllPlaced(s, spans)
    ensures forall i :: 0 <= i < |spans| ==> Render(s, spans)[i] == SegmentOf(s, spans[i])
  {
    if spans != [] {
      RenderAt(s, spans[1..]);
      assert forall i :: 1 <= i < |spans| ==> spans[1..][i - 1] == spans[i];
    }
  }

  /** `parseMessageSegments(rawContent)`, including its fallback for an empty result. */
  function ParseMessageSegments(raw: string): (r: seq<Segment>)
    ensures |r| > 0
    ensures raw == "" <==> r == [Text("")]
    ensures raw != "" ==> |r| == |Scan(raw, 0)|
  {
    var spans := Scan(raw, 0);
    var segments := Render(raw, spans);
    if |segments| == 0 then
      if IsBlank(raw) then [Text(raw)]
      else if !Includes(raw, Backticks) then [Text(raw)]
      else []
    else
      assert raw != "" by { assert spans[0].Start() < spans[0].End() <= |raw|; }
      assert segments[0] == SegmentOf(raw, spans[0]);
      segments
  }

  /**
    The loop and the tail produce no segment only for the empty reply, so the
    fallback branch is reached only then, and it yields one empty text segment.
   */
  lemma FallbackOnlyForEmpty(raw: string)
    ensures Render(raw, Scan(raw, 0)) == [] <==> raw == ""
    ensures raw == "" ==> ParseMessageSegments(raw) == [Text("")]
  {
    if raw != "" {
      var spans := Scan(raw, 0);
      assert spans != [] by { assert Tiles(raw, 0, spans); }
    }
  }

  /** On a non-empty reply, the result is exactly the rendering of the spans the loop visits. */
  lemma ParseRendersSpans(raw: string)
    requires raw != ""
    ensures ParseMessageSegments(raw) == Render(raw, Scan(raw, 0))
  {
  }

  /** A slice cut at `j` is the two slices on either side. */
  lemma SliceAt(s: string, i: nat, j: nat, k: nat)
    requires i <= j <= k <= |s|
    ensures s[i..k] == s[i..j] + s[j..k]
  {
  }

  /** A match found by the anchored matcher spells out the fence it consumed, and nothing else. */
  lemma MatchText(s: string, p: nat)
    requires p <= |s| && MatchAt(s, p).Some?
    ensures var m := MatchAt(s, p).value;
      s[m.start..m.End()] == Backticks + Lang(s, m) + "\n" + Body(s, m) + Backticks
  {
    var m := MatchAt(s, p).value;
    FenceText(s, p, m.tagEnd, m.close);
  }

  /** The text from an opening fence to the end of a closing fence, cut at the newline after the tag. */
  lemma FenceText(s: string, p: nat, q: nat, b: nat)
    requires FenceAt(s, p) && FenceAt(s, b) && p + 3 <= q < b && s[q] == '\n'
    ensures s[p..b + 3] == Backticks + s[p + 3..q] + "\n" + s[q + 1..b] + Backticks
  {
    SliceAt(s, p, p + 3, b + 3);
    SliceAt(s, p + 3, q, b + 3);
    SliceAt(s, q, q + 1, b + 3);
    SliceAt(s, q + 1, b, b + 3);
    assert s[p..p + 3] == Backticks && s[b..b + 3] == Backticks && s[q..q + 1] == "\n";
  }

  /** A tag holds tag characters only, and a body holds no "```" (the body is the shortest one). */
  lemma MatchParts(s: string, p: nat)
    requires p <= |s| && MatchAt(s, p).Some?
    ensures var m := MatchAt(s, p).value;
      IsTag(Lang(s, m)) && !Includes(Body(s, m), Backticks)
  {
    var m := MatchAt(s, p).value;
    MatchAtSound(s, p);
    assert IsTag(Lang(s, m)) by {
      assert forall k :: 0 <= k < |Lang(s, m)| ==> Lang(s, m)[k] == s[m.start + 3 + k];
    }
    var body := Body(s, m);
    NoFenceNoBackticks(body);
    forall k | FenceAt(body, k) ensures FenceAt(s, m.tagEnd + 1 + k) {
    }
  }

  /** `t.includes("```")` holds exactly when three backticks start somewhere in `t`. */
  lemma NoFenceNoBackticks(t: string)
    ensures Includes(t, Backticks) <==> exists k :: FenceAt(t, k)
  {
    IncludesIffOccurs(t, Backticks);
    forall k: nat ensures OccursAt(t, Backticks, k) <==> FenceAt(t, k) {
      if k + 3 <= |t| {
        assert OccursAt(t, Backticks, k) <==> t[k..k + 3] == Backticks;
        assert t[k..k + 3] == Backticks <==> FenceAt(t, k) by {
          assert t[k..k + 3] == [t[k], t[k + 1], t[k + 2]];
        }
      }
    }
  }

  /** The expression matches at no position from `from` up to, not including, `to`. */
  predicate NoMatchIn(s: string, from: nat, to: nat)
    requires to <= |s|
  {
    forall p :: from <= p < to ==> MatchAt(s, p).None?
  }

  /**
    Every text segment is non-empty and is the text of a gap of the scan, a
    stretch of the reply in which the expression matches nowhere.
   */
  lemma TextSegments(raw: string)
    requires raw != ""
    ensures var r := ParseMessageSegments(raw); var spans := Scan(raw, 0);
      forall i :: 0 <= i < |r| && r[i].Text? ==>
        && r[i].value != ""
        && spans[i].Gap? && r[i].value == raw[spans[i].from..spans[i].to]
        && NoMatchIn(raw, spans[i].from, spans[i].to)
  {
    var spans := Scan(raw, 0);
    var r := ParseMessageSegments(raw);
    forall i | 0 <= i < |r| && r[i].Text?
      ensures r[i].value != ""
      ensures spans[i].Gap? && r[i].value == raw[spans[i].from..spans[i].to]
      ensures NoMatchIn(raw, spans[i].from, spans[i].to)
    {
      SegmentAt(raw, i);
      SpanValidAt(raw, i);
    }
  }

  /** Text and code alternate: a text segment is always followed by a code segment, if by anything. */
  lemma TextThenCode(raw: string)
    requires raw != ""
    ensures var r := ParseMessageSegments(raw);
      forall i :: 0 <= i < |r| - 1 && r[i].Text? ==> r[i + 1].Code?
  {
    var spans := Scan(raw, 0);
    var r := ParseMessageSegments(raw);
    forall i | 0 <= i < |r| - 1 && r[i].Text? ensures r[i + 1].Code? {
      SegmentAt(raw, i);
      SegmentAt(raw, i + 1);
      assert spans[i].Gap? ==> spans[i + 1].Hit?;
    }
  }

  /** Segment `i` of a non-empty reply is the rendering of span `i` of the scan. */
  lemma SegmentAt(raw: string, i: nat)
    requires raw != "" && i < |Scan(raw, 0)|
    ensures |ParseMessageSegments(raw)| == |Scan(raw, 0)|
    ensures ParseMessageSegments(raw)[i] == SegmentOf(raw, Scan(raw, 0)[i])
  {
    ParseRendersSpans(raw);
    RenderAt(raw, Scan(raw, 0));
  }

  /** Span `i` of the scan is valid. */
  lemma SpanValidAt(raw: string, i: nat)
    requires i < |Scan(raw, 0)|
    ensures ValidSpan(raw, Scan(raw, 0)[i])
  {
    ScanValid(raw, 0);
  }

  /** How a code segment is read off a match of `s`. */
  predicate RendersMatch(s: string, seg: Segment, m: Match)
    requires Fits(s, m)
  {
    && seg.Code?
    && (seg.lang.None? <==> Lang(s, m) == "")
    && (seg.lang.Some? ==> seg.lang.value == Lang(s, m))
    && (Body(s, m) == seg.value || Body(s, m) == seg.value + "\n")
    && (Body(s, m) == seg.value + "\n" <==> |Body(s, m)| > 0 && Body(s, m)[|Body(s, m)| - 1] == '\n')
  }

  /**
    Every code segment comes from a genuine match of the expression: its `lang`
    is absent when the tag is empty and otherwise is the non-empty tag of tag
    characters, and its value is the body with at most one trailing newline
    removed, which contains no "```".
   */
  lemma CodeSegments(raw: string)
    ensures var r := ParseMessageSegments(raw);
      forall i :: 0 <= i < |r| && r[i].Code? ==>
        && (exists m: Match :: m.start <= |raw| && MatchAt(raw, m.start) == Some(m) && RendersMatch(raw, r[i], m))
        && (r[i].lang.Some? ==> r[i].lang.value != "" && IsTag(r[i].lang.value))
        && !Includes(r[i].value, Backticks)
  {
    var r := ParseMessageSegments(raw);
    if raw != "" {
      forall i | 0 <= i < |r| && r[i].Code?
        ensures exists m: Match :: m.start <= |raw| && MatchAt(raw, m.start) == Some(m) && RendersMatch(raw, r[i], m)
        ensures r[i].lang.Some? ==> r[i].lang.value != "" && IsTag(r[i].lang.value)
        ensures !Includes(r[i].value, Backticks)
      {
        SegmentAt(raw, i);
        SpanValidAt(raw, i);
        var m := Scan(raw, 0)[i].m;
        assert RendersMatch(raw, r[i], m);
        MatchParts(raw, m.start);
        NoFenceNoBackticks(Body(raw, m));
        NoFenceNoBackticks(r[i].value);
        if k :| FenceAt(r[i].value, k) {
          assert FenceAt(Body(raw, m), k);
        }
      }
    }
  }

  /**
    A reply in which no closing fence can follow an opening one (in particular
    an unterminated fence) renders as one text segment holding the whole reply.
   */
  lemma UnterminatedIsText(raw: string)
    requires forall k, j :: FenceAt(raw, k) && FenceAt(raw, j) && k <= j ==> j < k + 3
    ensures ParseMessageSegments(raw) == [Text(raw)]
  {
    forall p | 0 <= p <= |raw| ensures MatchAt(raw, p).None? {
      if MatchAt(raw, p).Some? {
        MatchAtSound(raw, p);
      }
    }
    FindFromFirst(raw, 0);
    if raw != "" {
      assert Scan(raw, 0) == [Gap(0, |raw|)];
      assert raw[0..|raw|] == raw;
    }
  }

  /** A reply without "```" renders as one text segment holding the whole reply. */
  lemma NoBackticksIsText(raw: string)
    requires !Includes(raw, Backticks)
    ensures ParseMessageSegments(raw) == [Text(raw)]
  {
    NoFenceNoBackticks(raw);
    UnterminatedIsText(raw);
  }

  /** The raw text of the spans, concatenated in order. */
  function SpanText(s: string, spans: seq<Span>): string
    requires AllPlaced(s, spans)
  {
    if spans == [] then []
    else
      assert WellPlaced(s, spans[0]);
      s[spans[0].Start()..spans[0].End()] + SpanText(s, spans[1..])
  }

  /** Spans that tile `s[last..]` spell it out exactly. */
  lemma {:induction false} TilesSpell(s: string, last: nat, spans: seq<Span>)
    requires last <= |s| && Tiles(s, last, spans)
    requires AllPlaced(s, spans)
    ensures SpanText(s, spans) == s[last..]
    decreases |spans|
  {
    if spans != [] {
      var e := spans[0].End();
      assert WellPlaced(s, spans[0]);
      assert Tiles(s, e, spans[1..]) by {
        forall i, j | 0 <= i && j == i + 1 < |spans[1..]| ensures spans[1..][i].End() == spans[1..][j].Start() {
          assert spans[1..][i] == spans[i + 1] && spans[1..][j] == spans[j + 1];
        }
      }
      TilesSpell(s, e, spans[1..]);
      assert s[last..] == s[last..e] + s[e..];
    }
  }

  /**
    The gaps and matched fences, taken in order, partition the reply exactly:
    concatenating their text gives back the reply.
   */
  lemma Partition(raw: string)
    ensures SpanText(raw, Scan(raw, 0)) == raw
  {
    TilesSpell(raw, 0, Scan(raw, 0));
  }

  /**
    The `while` loop of `parseMessageSegments`, written as the source writes it,
    computes the same segments as the recursive definition.
   */
  method ParseLoop(raw: string) returns (segments: seq<Segment>)
    ensures segments == ParseMessageSegments(raw)
  {
    segments := [];
    var lastIndex: nat := 0;
    var found := FindFrom(raw, lastIndex);
    while found.Some?
      invariant lastIndex <= |raw|
      invariant found == FindFrom(raw, lastIndex)
      invariant segments + Render(raw, Scan(raw, lastIndex)) == Render(raw, Scan(raw, 0))
      decreases |raw| - lastIndex
    {
      var m := found.value;
      ScanStep(raw, lastIndex);
      var added := LoopTurn(raw, lastIndex, m);
      TurnIsStep(raw, lastIndex, m, added);
      Regroup(segments, added, Render(raw, Scan(raw, m.End())), Render(raw, Scan(raw, 0)));
      segments := segments + added;
      lastIndex := m.End();
      found := FindFrom(raw, lastIndex);
    }
    ScanDone(raw, lastIndex);
    if lastIndex < |raw| {
      segments := segments + [Text(raw[lastIndex..])];
    }
    if |segments| == 0 {
      TrimEmptyIffBlank(raw);
      if Trim(raw) == "" {
        segments := [Text(raw)];
      } else if !Includes(raw, Backticks) {
        segments := [Text(raw)];
      }
    }
  }

  /**
    The body of the loop for one match: the text since `lastIndex`, when
    non-empty, then the code block with its tag as language (none when empty)
    and its body less one trailing newline.
   */
  method LoopTurn(raw: string, lastIndex: nat, m: Match) returns (added: seq<Segment>)
    requires lastIndex <= m.start && Fits(raw, m)
    ensures |added| == (if m.start > lastIndex then 2 else 1)
    ensures m.start > lastIndex ==> added[0] == Text(raw[lastIndex..m.start])
    ensures RendersMatch(raw, added[|added| - 1], m)
  {
    var gap := if m.start > lastIndex then [Text(raw[lastIndex..m.start])] else [];
    var tag := raw[m.start + 3..m.tagEnd];
    var lang := if tag == "" then None else Some(tag);
    var code := raw[m.tagEnd + 1..m.close];
    if |code| > 0 && code[|code| - 1] == '\n' {
      code := code[..|code| - 1];
    }
    added := gap + [Code(lang, code)];
  }

  /** After the last match, what is left of the reply is one final text segment, if anything. */
  lemma ScanDone(s: string, last: nat)
    requires last <= |s| && FindFrom(s, last).None?
    ensures Render(s, Scan(s, last)) == if last < |s| then [Text(s[last..])] else []
  {
    if last < |s| {
      var spans := Scan(s, last);
      assert spans == [Gap(last, |s|)];
      var r := Render(s, spans);
      assert r[0] == Text(s[last..|s|]);
      assert s[last..|s|] == s[last..];
    }
  }

  /** A match renders as exactly one segment: the one `CodeOf` builds. */
  lemma RendersMatchUnique(s: string, seg: Segment, m: Match)
    requires Fits(s, m) && RendersMatch(s, seg, m)
    ensures seg == CodeOf(s, m)
  {
    var body := Body(s, m);
    if |body| > 0 && body[|body| - 1] == '\n' {
      assert body[..|body| - 1] == seg.value;
    }
  }

  /** What one turn of the loop adds, as `LoopTurn` describes it, is the turn's segments. */
  lemma TurnIsStep(raw: string, lastIndex: nat, m: Match, added: seq<Segment>)
    requires lastIndex <= m.start && Fits(raw, m)
    requires |added| == (if m.start > lastIndex then 2 else 1)
    requires m.start > lastIndex ==> added[0] == Text(raw[lastIndex..m.start])
    requires RendersMatch(raw, added[|added| - 1], m)
    ensures added == StepSegments(raw, lastIndex, m)
  {
    RendersMatchUnique(raw, added[|added| - 1], m);
  }

  /** The segments one turn of the loop adds: the text before the match, if any, then the code block. */
  function StepSegments(s: string, last: nat, m: Match): seq<Segment>
    requires last <= m.start && Fits(s, m)
  {
    (if m.start > last then [Text(s[last..m.start])] else []) + [CodeOf(s, m)]
  }

  /** One turn of the loop: the segments of the scan from `last` are this turn's, then those after the match. */
  lemma ScanStep(s: string, last: nat)
    requires last <= |s| && FindFrom(s, last).Some?
    ensures var m := FindFrom(s, last).value;
      Render(s, Scan(s, last)) == StepSegments(s, last, m) + Render(s, Scan(s, m.End()))
  {
    var m := FindFrom(s, last).value;
    if m.start > last {
      ScanStepGap(s, last, m);
    } else {
      ScanStepHit(s, last, m);
    }
  }

  /** A turn whose match starts at `last` adds the code block only. */
  lemma ScanStepHit(s: string, last: nat, m: Match)
    requires last <= |s| && FindFrom(s, last) == Some(m) && m.start == last
    ensures Render(s, Scan(s, last)) == StepSegments(s, last, m) + Render(s, Scan(s, m.End()))
  {
    HitFirst(s, last, m);
    HitThenRest(s, m);
    assert StepSegments(s, last, m) == [CodeOf(s, m)];
  }

  /** When the leftmost match starts at `last`, the scan opens with it. */
  lemma HitFirst(s: string, last: nat, m: Match)
    requires last <= |s| && FindFrom(s, last) == Some(m) && m.start == last
    ensures Render(s, Scan(s, last)) == Render(s, [Hit(m)] + Scan(s, m.End()))
  {
    assert Scan(s, last) == [Hit(m)] + Scan(s, m.End());
  }

  /** A turn whose match starts after `last` adds the text before it, then the code block. */
  lemma ScanStepGap(s: string, last: nat, m: Match)
    requires last <= |s| && FindFrom(s, last) == Some(m) && m.start > last
    ensures Render(s, Scan(s, last)) == StepSegments(s, last, m) + Render(s, Scan(s, m.End()))
  {
    GapThenHit(s, last, m);
    HitThenRest(s, m);
    var text := Text(s[last..m.start]);
    var tail := Render(s, Scan(s, m.End()));
    assert [text] + ([CodeOf(s, m)] + tail) == ([text] + [CodeOf(s, m)]) + tail;
  }

  /** Rendering a match followed by the scan after it. */
  lemma HitThenRest(s: string, m: Match)
    requires Fits(s, m)
    ensures Render(s, [Hit(m)] + Scan(s, m.End())) == [CodeOf(s, m)] + Render(s, Scan(s, m.End()))
  {
    var hitRest := [Hit(m)] + Scan(s, m.End());
    assert hitRest[1..] == Scan(s, m.End());
  }

  /** When the leftmost match starts after `last`, the scan opens with the gap up to it. */
  lemma GapThenHit(s: string, last: nat, m: Match)
    requires last <= |s| && FindFrom(s, last) == Some(m) && m.start > last
    ensures Render(s, Scan(s, last)) == [Text(s[last..m.start])] + Render(s, [Hit(m)] + Scan(s, m.End()))
  {
    var hitRest := [Hit(m)] + Scan(s, m.End());
    var spans := [Gap(last, m.start)] + hitRest;
    assert Scan(s, last) == spans;
    assert spans[1..] == hitRest;
  }
}
