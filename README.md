# Stream segment buffer of Home Assistant's `stream` component

This project models the segment buffer that sits between the stream worker and
the HLS views (`homeassistant/components/stream/core.py`), and proves properties
of that model:

- **`Segment`** (module `Segments`, with the pure specification in `Parts` and
  `Playlist`) holds media parts in a dictionary keyed by byte offset.
  - `async_add_part` stores each part under the current `data_size`.
  - `get_data` joins the part data.
  - `get_aggregating_bytes` serves a byte range of a segment that may still be
    filling.
  - `_render_hls_template` and `render_hls` render the segment's section of the
    HLS playlist incrementally. They keep a render cache in four fields of the
    segment. The section holds `EXT-X-DISCONTINUITY`, `EXT-X-PART`,
    `EXT-X-PROGRAM-DATE-TIME`, `EXTINF` and `EXT-X-PRELOAD-HINT` lines, which are
    the Media Segment tags of section 4.3.2 of RFC 8216 and the Low-Latency HLS
    tags.
- **`IdleTimer`** (module `Timers`) tracks the `idle` flag and the cancel handle
  of the pending alarm.
- **`StreamOutput`** (module `Outputs`) keeps a history of segments that drops
  the oldest segment when full, together with its idle timer.

`Segment`, `IdleTimer` and `StreamOutput` are classes whose methods update their
fields. Each method is proved against a pure function:

- `AddPart` and `Aggregate` for the parts;
- `NextCache` and `RenderHls` for the playlist;
- `AfterStart`, `AfterAwake`, `AfterClear` and `AfterFire` for the timer;
- `Appended` and `LatestWith` for the segment history.

The lemmas state the properties of those functions.

Representation choices:

- The insertion-ordered dictionary `parts_by_byterange` is a sequence of
  key/value items (module `OrderedDict`). Assigning to an existing key replaces
  the item in place, and assigning to a new key appends it.
- Durations are integer milliseconds. `f"{duration:.3f}"` is rendered as the
  seconds, a dot and three digits (`Decimal.FormatMillis`).
- A template holding one `{}` placeholder is `Template(head, tail)`.
  `str.format` fills the placeholder.
- The parsers in `Decimal` and `PlaylistSyntax` read the rendered lines back.
  Their round-trip lemmas show that every `EXT-X-PART` and `EXT-X-PRELOAD-HINT`
  line carries exactly the values it was rendered from.

## Model

| member | source | states |
|---|---|---|
| Parts.DataSizeIsLength | homeassistant/components/stream/core.py:88-97 | on a well-formed part map, `data_size` (0 when empty, else the last key plus the last part's length) equals the length of `get_data()` |
| Parts.AddPartFacts | homeassistant/components/stream/core.py:100-112 | `async_add_part` stores the part under the old `data_size`, either appended or replacing an empty newest part. The map stays contiguous, the data grows by exactly the part's bytes, `data_size` grows by its length, and the part is found under the old size |
| Parts.AddPartsAccumulate | homeassistant/components/stream/core.py:88-116 | after any sequence of adds, `get_data()` is the old data followed by every part's bytes in order, and `data_size` is the old size plus the sum of the part lengths |
| Parts.AddPartsKeepsEach | homeassistant/components/stream/core.py:100-112 | adding non-empty parts to an empty segment keeps one entry per part, in insertion order, with part i stored under the sum of the lengths before it |
| Parts.KeysIncrease | homeassistant/components/stream/core.py:59-62 | in a well-formed part map, keys strictly increase in insertion order |
| Parts.PartAt | homeassistant/components/stream/core.py:114-116 | each part's bytes sit in `get_data()` at its key, and the next key (or `data_size`) follows it directly |
| Parts.AggregateStepReads | homeassistant/components/stream/core.py:126-138 | one generator step waits (`b""`, cursor unchanged) iff the segment is incomplete and no part is at the cursor, and stops iff it is complete and no part is there. Otherwise it yields the stored bytes from the cursor to the next boundary, or, trimmed, up to `end_loc` |
| Parts.AggregateWaits | homeassistant/components/stream/core.py:127-130 | on an incomplete segment with no part at the cursor, every yield is `b""` and the generator does not return |
| Parts.AggregateStopsOffBoundary | homeassistant/components/stream/core.py:127 | on a complete segment with no part at the cursor, the generator returns without yielding |
| Parts.AggregateReadsRange | homeassistant/components/stream/core.py:118-138 | on a complete segment (whose newest part holds data unless `end_loc <= data_size`), reading from a part boundary returns within the remaining parts plus one yield, and the joined yields equal `get_data()[start_loc:min(end_loc, data_size)]` |
| Parts.WaitThenYieldNext | homeassistant/components/stream/core.py:100-134 | a reader waiting at `data_size` of an open segment gets exactly the next added part's data |
| Segments.Segment.DataSize | homeassistant/components/stream/core.py:88-97 | the O(1) size read off the newest part is the length of `get_data()` |
| Segments.Segment.GetData | homeassistant/components/stream/core.py:114-116 | the joined part data is as long as `data_size` says, and empty with no parts |
| Segments.Segment.DataSizeWithInit | homeassistant/components/stream/core.py:83-86 | the size with init is the length of the init followed by the part data |
| Segments.Segment.AsyncAddPart | homeassistant/components/stream/core.py:79-112 | the new part map is `AddPart` of the old one, the duration is overwritten and `complete` holds iff it is non-zero, `get_data()` and `data_size` grow by the part, and the render cache is untouched |
| Segments.RenderPartLines | homeassistant/components/stream/core.py:159-169 | the `islice` loop renders exactly one `EXT-X-PART` line per entry from the first unrendered one on, in order |
| Segments.Segment.RenderHlsTemplate | homeassistant/components/stream/core.py:140-193 | the new cache is `NextCache` of the old segment and cache (with the corrected template of the Findings table), the segment's parts are unchanged, and the returned text is the stored template |
| Segments.Segment.RenderHls | homeassistant/components/stream/core.py:195-220 | the new cache and the returned text are those of `Playlist.RenderHls` on the old state (with the corrected template of the Findings table) |
| Segments.Segment.GetAggregatingBytes | homeassistant/components/stream/core.py:118-138 | the chunks the loop yields to a consumer pulling `limit` of them, and whether it returned, are those of `Aggregate` |
| Playlist.NextCache | homeassistant/components/stream/core.py:147-191 | a complete cache is returned unchanged. Otherwise the render records `hls_num_parts_rendered == len(parts_by_byterange)` and `hls_playlist_complete == complete`, and the cache keeps a template, built by the corrected `NextTemplate` of the Findings table |
| Playlist.RenderHls | homeassistant/components/stream/core.py:195-220 | the cache is the one the template render leaves; the text opens with the template's head, where the discontinuity marker goes, and with a hint asked for, its last line is the preload hint for the next part |
| Playlist.NextTemplate | homeassistant/components/stream/core.py:150-183 | the template's head (the discontinuity decision) is fixed by the first render. A complete segment gets the date-time, `EXTINF` and URI tail, and an open segment with a stored template keeps it |
| Playlist.RenderHlsIdempotent | homeassistant/components/stream/core.py:140-220 | a second render with the same arguments and no new part leaves the cache as the first left it and returns the same text |
| Playlist.PartLinesAppend | homeassistant/components/stream/core.py:159-169 | the part lines of two runs of entries are the lines of the first followed by those of the second |
| Playlist.IncrementalRenderMatchesFresh | homeassistant/components/stream/core.py:140-193 | rendering an open segment and then rendering it again once it has more parts (and possibly a duration) leaves the same cache as one render of the final segment |
| Playlist.RenderEachMatchesFresh | homeassistant/components/stream/core.py:140-193 | any chain of renders of a growing segment, starting from the empty cache, ends in the cache of a single render of its last state |
| Playlist.DiscontinuityOnStreamChange | homeassistant/components/stream/core.py:154-157 | the first rendered section begins with `#EXT-X-DISCONTINUITY` iff `last_stream_id != stream_id` |
| Playlist.HintNamesNextPart | homeassistant/components/stream/core.py:208-217 | the preload hint names this segment at `data_size` while it is open, and the next segment at 0 once it is complete. In both cases that is where the next part is stored |
| Playlist.NextTemplateAsWritten | homeassistant/components/stream/core.py:150-183 | the template as the source builds it: a first render's head is the discontinuity decision, and a completing re-render's head is empty |
| Playlist.AsWrittenDropsDiscontinuity | homeassistant/components/stream/core.py:170-171 | a render while open and another once complete lose the discontinuity marker that the corrected template keeps |
| PlaylistSyntax.ParsePartLineOf | homeassistant/components/stream/core.py:165-168 | every `EXT-X-PART` line reads back to its duration, segment number, byte length, offset and `INDEPENDENT=YES` flag (present iff the part has a keyframe) |
| PlaylistSyntax.ParseHintLineOf | homeassistant/components/stream/core.py:216-217 | every `EXT-X-PRELOAD-HINT` line reads back to the segment number and start offset it announces |
| Decimal.MillisOf | homeassistant/components/stream/core.py:166 | a duration printed with three decimals reads back to the same number of milliseconds |
| Timers.IdleTimer.Start | homeassistant/components/stream/core.py:240-244 | the new state is `AfterStart` of the old: not idle, and an alarm is scheduled only when no handle is held |
| Timers.IdleTimer.Awake | homeassistant/components/stream/core.py:246-251 | the new state is `AfterAwake` of the old: the old alarm is cancelled and a fresh one is pending |
| Timers.IdleTimer.Clear | homeassistant/components/stream/core.py:253-256 | the new state is `AfterClear` of the old: the pending alarm is cancelled and the handle is kept |
| Timers.IdleTimer.Fire | homeassistant/components/stream/core.py:258-262 | the new state is `AfterFire` of the old: idle, no handle, callback run once more |
| Timers.StartFacts | homeassistant/components/stream/core.py:240-244 | `start` clears `idle` and schedules an alarm iff no handle is held |
| Timers.StartIdempotent | homeassistant/components/stream/core.py:240-244 | starting twice is starting once |
| Timers.AwakePostpones | homeassistant/components/stream/core.py:246-251 | after `awake` exactly one new alarm is pending, and the timer is active |
| Timers.ClearDisarms | homeassistant/components/stream/core.py:253-256 | after `clear` no alarm is pending. Because the handle is kept, a later `start` arms only when no handle was held before |
| Timers.FireThenStart | homeassistant/components/stream/core.py:240-262 | after `fire` the timer is idle with no handle, and `start` arms it again |
| Timers.OperationsKeepConsistent | homeassistant/components/stream/core.py:223-262 | every operation keeps the timer consistent: an idle timer holds no handle, and a handle names a scheduled alarm |
| Timers.RunKeepsConsistent | homeassistant/components/stream/core.py:223-262 | under any interleaving of calls and alarms the timer stays consistent, and the callback runs at most once per alarm scheduled |
| Outputs.StreamOutput.LastSequence | homeassistant/components/stream/core.py:291-296 | -1 with no segments, otherwise the newest segment's number, and `get_segment` of that number returns the newest segment |
| Outputs.StreamOutput.Sequences | homeassistant/components/stream/core.py:298-301 | the sequence of each kept segment, oldest first |
| Outputs.StreamOutput.LastSegment | homeassistant/components/stream/core.py:303-308 | None iff there are no segments, otherwise the newest one, whose number is `last_sequence` |
| Outputs.StreamOutput.GetSegment | homeassistant/components/stream/core.py:310-316 | the reverse scan returns `LatestWith` of the segments |
| Outputs.LatestWithFinds | homeassistant/components/stream/core.py:310-316 | a segment is found iff one has that number, and it is the most recently appended such segment |
| Outputs.Appended | homeassistant/components/stream/core.py:347-353 | appending to the bounded deque keeps at most `maxlen` items, drops the oldest only when full, and keeps everything when unbounded |
| Outputs.AppendAllKeepsNewest | homeassistant/components/stream/core.py:347-353 | after any number of puts the deque holds exactly the newest `maxlen` segments in order, or all of them when unbounded |
| Outputs.StreamOutput.AsyncPut | homeassistant/components/stream/core.py:347-353 | starts the idle timer (`AfterStart`), so the output is no longer idle, and appends the segment with drop-oldest, keeping the bound. Unless the bound is zero, the segment becomes `last_segment` and its number `last_sequence` |
| Outputs.PutThenGet | homeassistant/components/stream/core.py:347-353 | a segment just put is the last one, and `get_segment` finds it by its number (unless the bound is zero) |
| Outputs.StreamOutput.Cleanup | homeassistant/components/stream/core.py:355-359 | clears the idle timer (`AfterClear`) and empties the history, keeping its bound: `last_sequence` is -1, `last_segment` None and `sequences` empty |
| Outputs.StreamOutput.Idle | homeassistant/components/stream/core.py:286-289 | the output is idle when its timer is, and an idle output has no alarm pending |

## Left out

- `StreamView` is not modelled: it is HTTP request handling.
- `StreamSettings` is not modelled: it is a plain configuration record.
- `recv`, `part_recv`, `part_put` and their `asyncio.Event`s are left out. They are asynchronous wait/notify with timeouts, and `async_add_part` therefore does not notify outputs.
- The thread handoff in `put` is left out; `_async_put` is modelled directly.
- The output broadcast in `Segment.__attrs_post_init__` is left out: it is construction glue.
- The scheduler is not modelled. `async_call_later` becomes a numbered alarm in `Timers.Schedule`, the timeout is only stored, and the idle callback is a counter.
- Floating-point durations are integer milliseconds, and `start_time.strftime(...)[:-3]` is an already formatted string.
- `hls_playlist_parts` being None before the first render is modelled as "". Both are falsy, so the source treats them alike.
- Segments.Segment.GetAggregatingBytes: models the generator on a segment that does not change while it is read, and as the first `limit` yields a consumer pulls. Parts added between two pulls are covered step by step by `Parts.WaitThenYieldNext`, not by the method.
- Parts.AggregateReadsRange: requires the newest part to hold data when `end_loc` is past `data_size` or unbounded. In that case a complete segment whose newest part is empty makes the source yield `b""` forever at that offset, which `Aggregate` shows as a run of `limit` yields that never returns.
- Playlist.IncrementalRenderMatchesFresh: requires the later segment to extend the earlier one entry by entry. When an empty newest part is overwritten by the next add, the incremental render keeps the empty part's line.
- Playlist.RenderEachMatchesFresh: requires every state in the chain to extend the previous one entry by entry (`Grows`), for the same reason: an overwritten empty newest part keeps its stale line in the incremental render.
- Playlist.NextCache: builds the template with the corrected `NextTemplate`, not with `NextTemplateAsWritten`. After a render of an open segment with a changed stream, a completing render keeps `#EXT-X-DISCONTINUITY` where the source drops it (Findings).
- Playlist.RenderHls: inherits the corrected template from `NextCache`, so its text differs from the source's on the Findings input.
- Segments.Segment.RenderHlsTemplate: stores the corrected template of `NextCache`, not the one core.py:170-171 builds, on the Findings input.
- Segments.Segment.RenderHls: returns the text of the corrected template on the Findings input.
- Segments.Segment.DataSizeWithInit: `init` is always a byte sequence. The source's default `init=None` makes `data_size_with_init` raise `TypeError`, which is not modelled.
- `end_loc` is an integer offset or unbounded (`EndLoc`). A finite non-integer `end_loc` fails the source's `assert isinstance(end_loc, int)` once reached, which is not modelled.

## Findings

| source | as written | input that shows it | evidently intended | confidence | as-written member | corrected member |
|---|---|---|---|---|---|---|
| homeassistant/components/stream/core.py:170-171 | when the segment completes, `playlist_template.pop()` removes the last element. On a re-render that element is the whole stored template, including `#EXT-X-DISCONTINUITY` | render with `last_stream_id != stream_id` while the segment is open, then render again after the last part sets a duration: the second template has no discontinuity marker | only the `{}` placeholder is replaced, so the discontinuity decided on the first render is kept | not executed | Playlist.NextTemplateAsWritten, Playlist.AsWrittenDropsDiscontinuity | Playlist.NextTemplate, Playlist.IncrementalRenderMatchesFresh, Playlist.NextCache, Playlist.RenderHls, Segments.Segment.RenderHlsTemplate, Segments.Segment.RenderHls |
