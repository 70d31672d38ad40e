/** `Segment`: a run of media parts from one keyframe to the next, filled in place
    by the stream worker and read by the HLS views. Its methods change its fields;
    each one is specified by the functions of `Parts` and `Playlist`. */
module Segments {
  import opened Wrappers
  import opened OrderedDict
  import opened Parts
  import opened Lines
  import opened Playlist

  /** The `#EXT-X-PART` lines of the entries from index `first` on, as the
      `islice(parts_by_byterange.items(), first, None)` loop renders them. */
  method RenderPartLines(sequence: int, parts: PartMap, first: nat) returns (lines: seq<string>)
    ensures first <= |parts| ==> lines == PartLines(sequence, parts[first..])
    ensures first > |parts| ==> lines == []
  {
    lines := [];
    if first > |parts| {
      return;
    }
    var i := first;
    assert parts[first..i] == [];
    while i < |parts|
      invariant first <= i <= |parts|
      invariant lines == PartLines(sequence, parts[first..i])
    {
      var entry := parts[i];
      PartLinesSnoc(sequence, parts, first, i);
      lines := lines + [PartLine(sequence, entry.key, entry.value)];
      i := i + 1;
    }
    assert parts[first..i] == parts[first..];
  }

  class Segment {
    const sequence: int
    const init: seq<byte>       // the mp4 init section the segment is based on
    const streamId: int         // for detecting discontinuities across restarts
    const startTime: string     // start_time, formatted to milliseconds
    var durationMs: nat
    var partsByByterange: PartMap
    var hlsPlaylistTemplate: Option<Template>
    var hlsPlaylistParts: string
    var hlsNumPartsRendered: nat
    var hlsPlaylistComplete: bool

    /** The parts are laid out as `async_add_part` lays them out, and a complete
        render cache holds a template. */
    ghost predicate Valid()
      reads this
    {
      Contiguous(partsByByterange) && CacheValid(Cache())
    }

    /** The fields the playlist text depends on. */
    function View(): SegmentView
      reads this
    {
      SegmentView(sequence, streamId, durationMs, startTime, partsByByterange)
    }

    /** The render cache fields. */
    function Cache(): HlsCache
      reads this
    {
      HlsCache(hlsPlaylistTemplate, hlsPlaylistParts, hlsNumPartsRendered, hlsPlaylistComplete)
    }

    /** A new segment with no parts, duration 0 and nothing rendered yet. */
    constructor(sequence: int, init: seq<byte>, streamId: int, startTime: string)
      ensures Valid()
      ensures View() == SegmentView(sequence, streamId, 0, startTime, [])
      ensures Cache() == EmptyCache && this.init == init
    {
      this.sequence := sequence;
      this.init := init;
      this.streamId := streamId;
      this.startTime := startTime;
      durationMs := 0;
      partsByByterange := [];
      hlsPlaylistTemplate := None;
      hlsPlaylistParts := "";
      hlsNumPartsRendered := 0;
      hlsPlaylistComplete := false;
    }

    /** `complete`: the duration is set, which happens with the last part. */
    predicate Complete()
      reads this
    {
      View().Complete()
    }

    /** `get_data()`: as long as `data_size` says, and empty with no parts. */
    function GetData(): (r: seq<byte>)
      reads this
      ensures Valid() ==> |r| == Parts.DataSize(partsByByterange)
      ensures partsByByterange == [] ==> r == []
    {
      DataSizeIsLength(partsByByterange);
      PartsData(partsByByterange)
    }

    /** `data_size`, read off the newest part alone, is the length of `get_data()`. */
    function DataSize(): (n: int)
      reads this
      ensures Valid() ==> n == |GetData()|
    {
      DataSizeIsLength(partsByByterange);
      Parts.DataSize(partsByByterange)
    }

    /** `data_size_with_init`: the size of the init section plus the part data. */
    function DataSizeWithInit(): (n: int)
      reads this
      ensures Valid() ==> n == |init + GetData()|
    {
      |init| + DataSize()
    }

    /** `async_add_part(part, duration)`: stores the part under the current
        `data_size` and records the duration. The data grows by the part's bytes and
        the render cache is left for the next render to bring up to date. */
    method AsyncAddPart(part: Part, duration: nat)
      requires Valid()
      modifies this
      ensures Valid()
      ensures partsByByterange == AddPart(old(partsByByterange), part)
      ensures durationMs == duration && (Complete() <==> duration > 0)
      ensures GetData() == old(GetData()) + part.data
      ensures DataSize() == old(DataSize()) + |part.data|
      ensures Get(partsByByterange, old(DataSize())) == Some(part)
      ensures Cache() == old(Cache())
    {
      AddPartFacts(partsByByterange, part);
      DataSizeIsLength(partsByByterange);
      partsByByterange := Set(partsByByterange, Parts.DataSize(partsByByterange), part);
      durationMs := duration;
    }

    /** `_render_hls_template(last_stream_id, render_parts)`: brings the cache up to
        date, rendering only the parts stored since the last render, and returns the
        stored template. */
    method RenderHlsTemplate(lastStreamId: int, renderParts: bool) returns (template: string)
      requires Valid()
      modifies this
      ensures Valid()
      ensures View() == old(View())
      ensures Cache() == NextCache(old(View()), old(Cache()), lastStreamId, renderParts)
      ensures hlsPlaylistTemplate.Some? && template == hlsPlaylistTemplate.value.Text()
    {
      if hlsPlaylistComplete {
        return hlsPlaylistTemplate.value.Text();
      }
      ghost var v, c := View(), Cache();
      var newTemplate := NextTemplate(View(), hlsPlaylistTemplate, lastStreamId);
      var playlistParts := PromoteText(hlsPlaylistParts);
      if renderParts {
        var lines := RenderPartLines(sequence, partsByByterange, hlsNumPartsRendered);
        playlistParts := playlistParts + lines;
      } else {
        assert playlistParts == playlistParts + [];
      }
      assert playlistParts == PromoteText(c.parts) + NewPartLines(v, c.numRendered, renderParts);
      if Complete() {
        playlistParts := playlistParts + [""];
      } else {
        assert playlistParts == playlistParts + [];
      }
      hlsPlaylistTemplate := Some(newTemplate);
      hlsPlaylistParts := JoinLines(playlistParts);
      hlsNumPartsRendered := |partsByByterange|;
      hlsPlaylistComplete := Complete();
      template := newTemplate.Text();
      assert View() == v;
      assert Cache() == NextCache(v, c, lastStreamId, renderParts);
    }

    /** `render_hls(last_stream_id, render_parts, add_hint)`: the segment's section of
        the playlist, with the preload hint for the next part when asked for. */
    method RenderHls(lastStreamId: int, renderParts: bool, addHint: bool) returns (text: string)
      requires Valid()
      modifies this
      ensures Valid()
      ensures View() == old(View())
      ensures (Cache(), text) == Playlist.RenderHls(old(View()), old(Cache()), lastStreamId, renderParts, addHint)
    {
      var template := RenderHlsTemplate(lastStreamId, renderParts);
      var t := hlsPlaylistTemplate.value;
      if !addHint {
        return t.Fill(if renderParts then hlsPlaylistParts else "");
      }
      var target := if Complete() then (sequence + 1, 0) else (sequence, DataSize());
      var withHint := Template(t.head, t.tail + "\n" + HintLine(target.0, target.1));
      text := withHint.Fill(hlsPlaylistParts);
    }

    /** `get_aggregating_bytes(start_loc, end_loc)`, as the first `limit` chunks its
        consumer pulls (and whether the generator returned within them), on a segment
        that does not change while they are pulled. */
    method GetAggregatingBytes(startLoc: int, endLoc: EndLoc, limit: nat)
      returns (chunks: seq<seq<byte>>, done: bool)
      ensures (chunks, done) == Aggregate(partsByByterange, Complete(), startLoc, endLoc, limit)
    {
      var parts, complete := partsByByterange, Complete();
      var pos := startLoc;
      chunks := [];
      done := false;
      var taken := 0;
      assert chunks + Aggregate(parts, complete, pos, endLoc, limit).0
        == Aggregate(parts, complete, pos, endLoc, limit).0;
      while taken < limit && !done
        invariant taken <= limit
        invariant done ==> Aggregate(parts, complete, startLoc, endLoc, limit) == (chunks, true)
        invariant !done ==>
          var rest := Aggregate(parts, complete, pos, endLoc, limit - taken);
          Aggregate(parts, complete, startLoc, endLoc, limit) == (chunks + rest.0, rest.1)
        decreases limit - taken, if done then 0 else 1
      {
        ghost var before := chunks;
        AggregateUnfold(parts, complete, pos, endLoc, limit - taken);
        var part := Get(parts, pos);
        if part.None? {
          if complete {
            assert before + [] == before;
            done := true;
          } else {
            chunks := chunks + [[]];
            taken := taken + 1;
            assert before + ([[]] + Aggregate(parts, complete, pos, endLoc, limit - taken).0)
              == chunks + Aggregate(parts, complete, pos, endLoc, limit - taken).0;
          }
        } else {
          var p := part.value;
          pos := pos + |p.data|;
          if endLoc.Offset? && pos >= endLoc.n {
            chunks := chunks + [PySliceTo(p.data, |p.data| + endLoc.n - pos)];
            taken := taken + 1;
            done := true;
          } else {
            chunks := chunks + [p.data];
            taken := taken + 1;
            assert before + ([p.data] + Aggregate(parts, complete, pos, endLoc, limit - taken).0)
              == chunks + Aggregate(parts, complete, pos, endLoc, limit - taken).0;
          }
        }
      }
      assert chunks + [] == chunks;
    }
  }
}
