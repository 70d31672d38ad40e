/** The HLS playlist section of one segment (`Segment._render_hls_template` and
    `Segment.render_hls`), as functions of the segment's fields and of the render
    cache the segment keeps. The tags are the Media Segment tags of section 4.3.2
    of RFC 8216 and the Low-Latency HLS tags EXT-X-PART and EXT-X-PRELOAD-HINT. */
module Playlist {
  import opened Wrappers
  import opened OrderedDict
  import opened Parts
  import opened Lines
  import opened Decimal

  /** The fields of a segment that its playlist text depends on. */
  datatype SegmentView = SegmentView(
    sequence: int,
    streamId: int,
    durationMs: nat,
    startTime: string,  // start_time, already formatted to milliseconds
    parts: PartMap)
  {
    /** `complete`: a non-zero duration is the completion signal. */
    predicate Complete() {
      durationMs > 0
    }
  }

  /** A stored template: text holding one `{}` placeholder, kept as the text before
      (`head`) and after (`tail`) the placeholder. */
  datatype Template = Template(head: string, tail: string) {
    /** The stored text itself. */
    function Text(): string {
      head + "{}" + tail
    }

    /** `template.format(arg)` */
    function Fill(arg: string): string {
      head + arg + tail
    }
  }

  /** The render cache: `hls_playlist_template` (None until the first render),
      `hls_playlist_parts`, `hls_num_parts_rendered`, `hls_playlist_complete`. */
  datatype HlsCache = HlsCache(template: Option<Template>, parts: string, numRendered: nat, complete: bool)

  const EmptyCache := HlsCache(None, "", 0, false)

  predicate CacheValid(c: HlsCache) {
    c.complete ==> c.template.Some?
  }

  const Discontinuity := "#EXT-X-DISCONTINUITY"

  /** One attribute of a tag, `NAME=value`, its value already quoted where quoted. */
  datatype Attribute = Attribute(name: string, value: string)

  /** An attribute list (section 4.2 of RFC 8216): the attributes joined by commas. */
  function AttributeList(attrs: seq<Attribute>): string {
    if |attrs| == 0 then ""
    else if |attrs| == 1 then attrs[0].name + ("=" + attrs[0].value)
    else attrs[0].name + ("=" + (attrs[0].value + ("," + AttributeList(attrs[1..]))))
  }

  /** The segment's URI relative to the playlist, in double quotes. */
  function QuotedUri(sequence: int): string {
    "\"./segment/" + (IntToString(sequence) + ".m4s\"")
  }

  /** `"len@offset"`, in double quotes. */
  function ByteRange(length: nat, offset: int): string {
    "\"" + (NatToString(length) + ("@" + (IntToString(offset) + "\"")))
  }

  /** One `#EXT-X-PART` line: duration, the segment's URI, `BYTERANGE="len@offset"`,
      and `INDEPENDENT=YES` when the part starts with a keyframe. */
  function PartLine(sequence: int, offset: int, p: Part): string {
    "#EXT-X-PART:" + AttributeList(
      [ Attribute("DURATION", FormatMillis(p.durationMs)),
        Attribute("URI", QuotedUri(sequence)),
        Attribute("BYTERANGE", ByteRange(|p.data|, offset)) ]
      + if p.hasKeyframe then [Attribute("INDEPENDENT", "YES")] else [])
  }

  /** The `#EXT-X-PART` lines of the given entries, in order. */
  function PartLines(sequence: int, d: PartMap): (lines: seq<string>)
    ensures |lines| == |d|
  {
    if |d| == 0 then []
    else PartLines(sequence, d[..|d| - 1]) + [PartLine(sequence, Newest(d).key, Newest(d).value)]
  }

  /** Where the next part will be: offset 0 of the next segment once this one is
      complete, otherwise this segment at its current `data_size`. */
  function HintTarget(v: SegmentView): (int, int) {
    if v.Complete() then (v.sequence + 1, 0) else (v.sequence, DataSize(v.parts))
  }

  function HintLine(sequence: int, start: int): string {
    "#EXT-X-PRELOAD-HINT:" + AttributeList(
      [Attribute("TYPE", "PART"), Attribute("URI", QuotedUri(sequence)), Attribute("BYTERANGE-START", IntToString(start))])
  }

  /** The lines the first render puts before the placeholder. */
  function DiscontinuityHead(v: SegmentView, lastStreamId: int): string {
    if lastStreamId != v.streamId then Discontinuity + "\n" else ""
  }

  /** The lines after the placeholder once the segment is complete: its start time,
      its duration and its URI. */
  function CompletionTail(v: SegmentView): string {
    "#EXT-X-PROGRAM-DATE-TIME:" + v.startTime + "Z\n#EXTINF:" + FormatMillis(v.durationMs)
      + ",\n./segment/" + IntToString(v.sequence) + ".m4s"
  }

  /** The template as the source computes it: on completion it pops the whole
      stored template, so a discontinuity line written by an earlier render is lost. */
  function NextTemplateAsWritten(v: SegmentView, prev: Option<Template>, lastStreamId: int): (t: Template)
    ensures prev.None? ==> t.head == DiscontinuityHead(v, lastStreamId)
    ensures prev.Some? && v.Complete() ==> t.head == ""
  {
    if v.Complete() then
      Template(if prev.Some? then "" else DiscontinuityHead(v, lastStreamId), CompletionTail(v))
    else if prev.Some? then prev.value
    else Template(DiscontinuityHead(v, lastStreamId), "")
  }

  /** The template with the discontinuity decided at the first render kept for good. */
  function NextTemplate(v: SegmentView, prev: Option<Template>, lastStreamId: int): (t: Template)
    ensures t.head == if prev.Some? then prev.value.head else DiscontinuityHead(v, lastStreamId)
    ensures v.Complete() ==> t.tail == CompletionTail(v)
    ensures !v.Complete() && prev.Some? ==> t == prev.value
  {
    var head := if prev.Some? then prev.value.head else DiscontinuityHead(v, lastStreamId);
    if v.Complete() then Template(head, CompletionTail(v))
    else if prev.Some? then prev.value
    else Template(head, "")
  }

  /** The part lines rendered now: those from `hls_num_parts_rendered` onward. */
  function NewPartLines(v: SegmentView, numRendered: nat, renderParts: bool): seq<string> {
    if renderParts && numRendered <= |v.parts| then PartLines(v.sequence, v.parts[numRendered..])
    else []
  }

  /** The cache after `_render_hls_template(last_stream_id, render_parts)`. */
  function NextCache(v: SegmentView, c: HlsCache, lastStreamId: int, renderParts: bool): (r: HlsCache)
    ensures CacheValid(c) ==> CacheValid(r) && r.template.Some?
    ensures c.complete ==> r == c
    ensures !c.complete ==> r.numRendered == |v.parts| && r.complete == v.Complete()
  {
    if c.complete then c
    else
      HlsCache(
        Some(NextTemplate(v, c.template, lastStreamId)),
        JoinLines(PromoteText(c.parts) + NewPartLines(v, c.numRendered, renderParts)
          + if v.Complete() then [""] else []),
        |v.parts|,
        v.Complete())
  }

  /** The text `render_hls` returns from the cache after the template render. */
  function PlaylistText(v: SegmentView, c: HlsCache, renderParts: bool, addHint: bool): string
    requires c.template.Some?
  {
    var t := c.template.value;
    if !addHint then t.Fill(if renderParts then c.parts else "")
    else
      var (sequence, start) := HintTarget(v);
      Template(t.head, t.tail + "\n" + HintLine(sequence, start)).Fill(c.parts)
  }

  /** `render_hls(last_stream_id, render_parts, add_hint)`: the new cache and the text.
      The text opens with the stored template's head (where a discontinuity goes) and,
      when a hint is asked for, its last line is the hint for the next part. */
  function RenderHls(v: SegmentView, c: HlsCache, lastStreamId: int, renderParts: bool, addHint: bool)
    : (r: (HlsCache, string))
    requires CacheValid(c)
    ensures r.0 == NextCache(v, c, lastStreamId, renderParts)
    ensures r.0.template.Some? && r.0.template.value.head <= r.1
    ensures addHint ==>
      var h := "\n" + HintLine(HintTarget(v).0, HintTarget(v).1);
      |h| <= |r.1| && r.1[|r.1| - |h|..] == h
  {
    var c' := NextCache(v, c, lastStreamId, renderParts);
    PlaylistTextShape(v, c', renderParts, addHint);
    (c', PlaylistText(v, c', renderParts, addHint))
  }

  /** Filling a template whose tail gained a last line ends with that line. */
  lemma FillEndsWith(t: Template, arg: string, line: string)
    ensures var text := Template(t.head, t.tail + "\n" + line).Fill(arg);
      t.head <= text && |"\n" + line| <= |text| && text[|text| - |"\n" + line|..] == "\n" + line
  {
    var text := Template(t.head, t.tail + "\n" + line).Fill(arg);
    assert text == t.head + (arg + t.tail) + ("\n" + line);
  }

  lemma PlaylistTextShape(v: SegmentView, c: HlsCache, renderParts: bool, addHint: bool)
    requires c.template.Some?
    ensures var text := PlaylistText(v, c, renderParts, addHint);
      var h := "\n" + HintLine(HintTarget(v).0, HintTarget(v).1);
      && c.template.value.head <= text
      && (addHint ==> |h| <= |text| && text[|text| - |h|..] == h)
  {
    var t := c.template.value;
    if addHint {
      FillEndsWith(t, c.parts, HintLine(HintTarget(v).0, HintTarget(v).1));
    } else {
      var arg := if renderParts then c.parts else "";
      assert t.Fill(arg) == t.head + (arg + t.tail);
    }
  }

  /** Rendering twice with the same arguments and no new part in between leaves the
      cache as the first render left it and returns the same text. */
  lemma RenderHlsIdempotent(v: SegmentView, c: HlsCache, lastStreamId: int, renderParts: bool, addHint: bool)
    requires CacheValid(c)
    ensures var (c1, t1) := RenderHls(v, c, lastStreamId, renderParts, addHint);
      RenderHls(v, c1, lastStreamId, renderParts, addHint) == (c1, t1)
  {
    var c1 := NextCache(v, c, lastStreamId, renderParts);
    if !c1.complete {
      assert v.parts[|v.parts|..] == [];
      assert PromoteText(c1.parts) + NewPartLines(v, c1.numRendered, renderParts) == PromoteText(c1.parts);
    }
  }

  // Incremental rendering against a render from scratch.

  /** The cache a single render of `v` from an empty cache produces. */
  function FreshCache(v: SegmentView, lastStreamId: int): (c: HlsCache)
    ensures CacheValid(c) && c.template.Some?
  {
    NextCache(v, EmptyCache, lastStreamId, true)
  }

  /** `v` is `v0` after more parts were stored; nothing changes after completion. */
  predicate Extends(v0: SegmentView, v: SegmentView) {
    && v0.sequence == v.sequence
    && v0.streamId == v.streamId
    && v0.startTime == v.startTime
    && v0.parts <= v.parts
    && (v0.Complete() ==> v == v0)
  }

  lemma {:induction false} PartLinesAppend(sequence: int, a: PartMap, b: PartMap)
    ensures PartLines(sequence, a + b) == PartLines(sequence, a) + PartLines(sequence, b)
    decreases |b|
  {
    if |b| > 0 {
      var b' := b[..|b| - 1];
      assert (a + b)[..|a + b| - 1] == a + b';
      PartLinesAppend(sequence, a, b');
    } else {
      assert a + b == a;
    }
  }

  /** One more entry adds its line at the end. */
  lemma PartLinesSnoc(sequence: int, d: PartMap, lo: nat, i: nat)
    requires lo <= i < |d|
    ensures PartLines(sequence, d[lo..i + 1]) == PartLines(sequence, d[lo..i]) + [PartLine(sequence, d[i].key, d[i].value)]
  {
    assert d[lo..i + 1][..i - lo] == d[lo..i];
  }

  lemma PartLinesNonEmpty(sequence: int, d: PartMap)
    requires |d| > 0
    ensures JoinLines(PartLines(sequence, d)) != ""
  {
    var lines := PartLines(sequence, d);
    if |d| > 1 {
      PartLinesAppend(sequence, d[..1], d[1..]);
      assert d[..1] + d[1..] == d;
    }
    assert lines[0] == PartLine(sequence, d[0].key, d[0].value);
    JoinLinesEmpty(lines);
  }

  /** The template of a later render equals the template of a first render. */
  lemma TemplateMatchesFresh(v0: SegmentView, v: SegmentView, lastStreamId: int)
    requires Extends(v0, v) && !v0.Complete()
    ensures NextTemplate(v, Some(NextTemplate(v0, None, lastStreamId)), lastStreamId)
      == NextTemplate(v, None, lastStreamId)
  {
    assert DiscontinuityHead(v0, lastStreamId) == DiscontinuityHead(v, lastStreamId);
  }

  /** The part lines of a later render continue those of the first render. */
  lemma PartsTextMatchesFresh(v0: SegmentView, v: SegmentView, trailer: seq<string>)
    requires Extends(v0, v)
    ensures var old0 := PartLines(v0.sequence, v0.parts);
      JoinLines(PromoteText(JoinLines(old0)) + NewPartLines(v, |v0.parts|, true) + trailer)
        == JoinLines(PromoteText("") + NewPartLines(v, 0, true) + trailer)
  {
    var n0 := |v0.parts|;
    var old0 := PartLines(v0.sequence, v0.parts);
    var added := NewPartLines(v, n0, true);
    assert NewPartLines(v, 0, true) == old0 + added by {
      assert v.parts[0..] == v.parts;
      assert v.parts == v0.parts + v.parts[n0..];
      PartLinesAppend(v.sequence, v0.parts, v.parts[n0..]);
    }
    assert JoinLines(old0) == "" ==> old0 == [] by {
      if n0 > 0 {
        PartLinesNonEmpty(v0.sequence, v0.parts);
      }
    }
    JoinContinues(old0, added, trailer);
  }

  /** Rendering only the parts that arrived since the last render gives the same
      cache, hence the same text, as rendering the whole segment from scratch. */
  lemma IncrementalRenderMatchesFresh(v0: SegmentView, v: SegmentView, lastStreamId: int)
    requires Extends(v0, v)
    ensures NextCache(v, FreshCache(v0, lastStreamId), lastStreamId, true) == FreshCache(v, lastStreamId)
  {
    if !v0.Complete() {
      var c0 := FreshCache(v0, lastStreamId);
      var trailer: seq<string> := if v.Complete() then [""] else [];
      assert c0.template == Some(NextTemplate(v0, None, lastStreamId));
      assert c0.parts == JoinLines(PartLines(v0.sequence, v0.parts)) by {
        assert v0.parts[0..] == v0.parts;
        assert PromoteText("") + PartLines(v0.sequence, v0.parts) + [] == PartLines(v0.sequence, v0.parts);
      }
      assert c0.numRendered == |v0.parts| && !c0.complete;
      TemplateMatchesFresh(v0, v, lastStreamId);
      PartsTextMatchesFresh(v0, v, trailer);
    }
  }

  /** The caches left by rendering each of `views` in turn, starting from `c`. */
  function RenderEach(views: seq<SegmentView>, c: HlsCache, lastStreamId: int): HlsCache {
    if |views| == 0 then c
    else NextCache(views[|views| - 1], RenderEach(views[..|views| - 1], c, lastStreamId), lastStreamId, true)
  }

  predicate Grows(views: seq<SegmentView>) {
    forall i | 0 <= i < |views| - 1 :: Extends(views[i], views[i + 1])
  }

  /** However the renders interleave with new parts, the cache after the last one is
      the cache of a single render of the final segment. */
  lemma {:induction false} RenderEachMatchesFresh(views: seq<SegmentView>, lastStreamId: int)
    requires |views| > 0 && Grows(views)
    ensures RenderEach(views, EmptyCache, lastStreamId) == FreshCache(views[|views| - 1], lastStreamId)
  {
    var n := |views|;
    if n > 1 {
      var prefix := views[..n - 1];
      assert Grows(prefix) by {
        forall i | 0 <= i < |prefix| - 1 ensures Extends(prefix[i], prefix[i + 1]) {
          assert Extends(views[i], views[i + 1]);
        }
      }
      RenderEachMatchesFresh(prefix, lastStreamId);
      assert Extends(views[n - 2], views[n - 1]);
      IncrementalRenderMatchesFresh(views[n - 2], views[n - 1], lastStreamId);
    }
  }

  /** The source's template, rendered first while the segment is still open and again
      once it is complete, has lost the discontinuity that a single render of the
      complete segment, and the corrected template, keep. */
  lemma AsWrittenDropsDiscontinuity(open: SegmentView, done: SegmentView, lastStreamId: int)
    requires Extends(open, done) && !open.Complete() && done.Complete()
    requires lastStreamId != open.streamId
    ensures var first := NextTemplateAsWritten(open, None, lastStreamId);
      && Discontinuity <= first.Text()
      && !(Discontinuity <= NextTemplateAsWritten(done, Some(first), lastStreamId).Text())
      && Discontinuity <= NextTemplateAsWritten(done, None, lastStreamId).Text()
      && Discontinuity <= NextTemplate(done, Some(first), lastStreamId).Text()
  {
    var first := NextTemplateAsWritten(open, None, lastStreamId);
    MarkedHead(first);
    EmptyHead(NextTemplateAsWritten(done, Some(first), lastStreamId));
    MarkedHead(NextTemplateAsWritten(done, None, lastStreamId));
    MarkedHead(NextTemplate(done, Some(first), lastStreamId));
  }

  /** A template whose head is the discontinuity line starts with the marker. */
  lemma MarkedHead(t: Template)
    requires t.head == Discontinuity + "\n"
    ensures Discontinuity <= t.Text()
  {
    assert t.Text() == Discontinuity + ("\n" + "{}" + t.tail);
  }

  /** A template with an empty head starts with the placeholder, not the marker. */
  lemma EmptyHead(t: Template)
    requires t.head == ""
    ensures !(Discontinuity <= t.Text())
  {
    assert t.Text()[0] == '{';
  }

  /** Text that cannot begin with the discontinuity marker: empty, a new line, or
      another `#EXT-X-P...` tag. */
  predicate StartsClear(s: string) {
    s == "" || s[0] != '#' || (|s| >= 8 && s[7] != 'D')
  }

  lemma StartsClearConcat(a: string, b: string)
    requires StartsClear(a) && (a == "" ==> StartsClear(b))
    ensures StartsClear(a + b)
  {
    if a != "" {
      assert (a + b)[0] == a[0];
      if |a| >= 8 {
        assert (a + b)[7] == a[7];
      }
    }
  }

  lemma StartsClearNotMarker(s: string)
    requires StartsClear(s)
    ensures !(Discontinuity <= s)
  {
  }

  lemma PartLineClear(sequence: int, offset: int, p: Part)
    ensures PartLine(sequence, offset, p) != "" && StartsClear(PartLine(sequence, offset, p))
  {
    var line := PartLine(sequence, offset, p);
    var lit := "#EXT-X-PART:";
    assert line[7] == lit[7];
  }

  lemma CompletionTailClear(v: SegmentView)
    ensures StartsClear(CompletionTail(v))
  {
    var lit := "#EXT-X-PROGRAM-DATE-TIME:";
    assert CompletionTail(v)[7] == lit[7];
  }

  lemma PartLinesFirst(sequence: int, d: PartMap)
    requires |d| > 0
    ensures PartLines(sequence, d)[0] == PartLine(sequence, d[0].key, d[0].value)
  {
    PartLinesAppend(sequence, d[..1], d[1..]);
    assert d[..1] + d[1..] == d;
  }

  /** The parts text of a first render is empty or starts with an `#EXT-X-PART` line. */
  lemma FreshPartsClear(v: SegmentView, renderParts: bool)
    ensures StartsClear(NextCache(v, EmptyCache, v.streamId, renderParts).parts)
  {
    var pl := NewPartLines(v, 0, renderParts);
    var lines := pl + if v.Complete() then [""] else [];
    assert [] + pl + (if v.Complete() then [""] else []) == lines;
    if |pl| > 0 {
      assert v.parts[0..] == v.parts;
      PartLinesFirst(v.sequence, v.parts);
      PartLineClear(v.sequence, v.parts[0].key, v.parts[0].value);
      assert lines[0] == pl[0];
      var joined := JoinLines(lines);
      assert lines[0] <= joined;
      assert joined[0] == lines[0][0];
      assert |lines[0]| >= 8 ==> joined[7] == lines[0][7];
    } else if v.Complete() {
      assert lines == [""];
    } else {
      assert lines == [];
    }
  }

  /** What a first render on the same stream puts after the parts text. */
  lemma AfterPartsClear(v: SegmentView, tail: string, hint: string, addHint: bool)
    requires tail == if v.Complete() then CompletionTail(v) else ""
    ensures StartsClear(if addHint then tail + "\n" + hint else tail)
  {
    if v.Complete() {
      CompletionTailClear(v);
      StartsClearConcat(tail, "\n" + hint);
      assert tail + "\n" + hint == tail + ("\n" + hint);
    } else {
      assert tail + "\n" + hint == "\n" + hint;
    }
  }

  /** The text is the template head, the parts text (when rendered or hinted) and the
      tail, with the hint line after the tail when asked for. */
  lemma TextAroundParts(v: SegmentView, c: HlsCache, renderParts: bool, addHint: bool)
    requires c.template.Some?
    ensures var t := c.template.value;
      var hint := HintLine(HintTarget(v).0, HintTarget(v).1);
      PlaylistText(v, c, renderParts, addHint)
        == t.head + ((if addHint || renderParts then c.parts else "") + (if addHint then t.tail + "\n" + hint else t.tail))
  {
    var t := c.template.value;
    var hint := HintLine(HintTarget(v).0, HintTarget(v).1);
    if addHint {
      assert Template(t.head, t.tail + "\n" + hint).Fill(c.parts) == t.head + (c.parts + (t.tail + "\n" + hint));
    } else {
      var filled := if renderParts then c.parts else "";
      assert t.Fill(filled) == t.head + (filled + t.tail);
    }
  }

  lemma NoMarkerOnSameStream(v: SegmentView, renderParts: bool, addHint: bool)
    ensures !(Discontinuity <= PlaylistText(v, NextCache(v, EmptyCache, v.streamId, renderParts), renderParts, addHint))
  {
    var c := NextCache(v, EmptyCache, v.streamId, renderParts);
    var tail := if v.Complete() then CompletionTail(v) else "";
    var hint := HintLine(HintTarget(v).0, HintTarget(v).1);
    var after := if addHint then tail + "\n" + hint else tail;
    var filled := if addHint || renderParts then c.parts else "";
    assert c.template.value.head == "" && c.template.value.tail == tail;
    TextAroundParts(v, c, renderParts, addHint);
    assert "" + (filled + after) == filled + after;
    FreshPartsClear(v, renderParts);
    AfterPartsClear(v, tail, hint, addHint);
    StartsClearConcat(filled, after);
    StartsClearNotMarker(filled + after);
  }

  lemma MarkerOnStreamChange(v: SegmentView, lastStreamId: int, renderParts: bool, addHint: bool)
    requires lastStreamId != v.streamId
    ensures Discontinuity <= PlaylistText(v, NextCache(v, EmptyCache, lastStreamId, renderParts), renderParts, addHint)
  {
    var c := NextCache(v, EmptyCache, lastStreamId, renderParts);
    var head := c.template.value.head;
    assert head == Discontinuity + "\n";
    TextAroundParts(v, c, renderParts, addHint);
    var text := PlaylistText(v, c, renderParts, addHint);
    assert text[..|Discontinuity|] == Discontinuity;
  }

  /** A first render starts with the discontinuity marker exactly when the stream
      changed; later renders keep that decision (`NextTemplate`). */
  lemma DiscontinuityOnStreamChange(v: SegmentView, lastStreamId: int, renderParts: bool, addHint: bool)
    ensures Discontinuity <= RenderHls(v, EmptyCache, lastStreamId, renderParts, addHint).1
        <==> lastStreamId != v.streamId
  {
    if lastStreamId == v.streamId {
      NoMarkerOnSameStream(v, renderParts, addHint);
    } else {
      MarkerOnStreamChange(v, lastStreamId, renderParts, addHint);
    }
  }

  /** The preload hint names where the next part will be stored: under the current
      `data_size` of this segment while it is open, at offset 0 of the next one after. */
  lemma HintNamesNextPart(v: SegmentView, p: Part)
    requires Contiguous(v.parts)
    ensures !v.Complete() ==>
      (HintTarget(v) == (v.sequence, DataSize(v.parts)) && Get(AddPart(v.parts, p), HintTarget(v).1) == Some(p))
    ensures v.Complete() ==>
      (HintTarget(v) == (v.sequence + 1, 0) && Get(AddPart([], p), HintTarget(v).1) == Some(p))
  {
    if v.Complete() {
      assert Contiguous([]);
      AddPartFacts([], p);
    } else {
      AddPartFacts(v.parts, p);
    }
  }
}
