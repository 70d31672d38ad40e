/** The parts of a segment, stored by byte offset (`Segment.parts_by_byterange`),
    and the byte-level operations over them: `data_size`, `get_data`,
    `async_add_part`'s store and one step of `get_aggregating_bytes`. */
module Parts {
  import opened Wrappers
  import opened OrderedDict

  newtype byte = x: int | 0 <= x < 256

  /** A fragment of encoded media (moof+mdat). The duration is in milliseconds. */
  datatype Part = Part(durationMs: nat, hasKeyframe: bool, data: seq<byte>)

  /** `parts_by_byterange`: byte offset -> part, in insertion order. */
  type PartMap = seq<Item<int, Part>>

  function Newest(d: PartMap): Item<int, Part>
    requires |d| > 0
  {
    d[|d| - 1]
  }

  /** `data_size`: read off the newest entry alone, its offset plus its length. */
  function DataSize(d: PartMap): int {
    if |d| == 0 then 0 else Newest(d).key + |Newest(d).value.data|
  }

  /** `get_data()`: the parts' bytes joined in insertion order. */
  function PartsData(d: PartMap): seq<byte> {
    if |d| == 0 then [] else PartsData(d[..|d| - 1]) + Newest(d).value.data
  }

  /** The layout that repeated `async_add_part` calls build: every part is stored
      under the number of bytes stored before it, and only the newest part may be
      empty (an empty part is overwritten by the next one, whose key is the same). */
  ghost predicate Contiguous(d: PartMap) {
    forall i | 0 <= i < |d| :: StoredAt(d, i)
  }

  /** Entry i is keyed by the size of the entries before it, and holds data unless newest. */
  ghost predicate StoredAt(d: PartMap, i: nat)
    requires i < |d|
  {
    && d[i].key == |PartsData(d[..i])|
    && (i < |d| - 1 ==> |d[i].value.data| > 0)
  }

  /** True when the newest part, if any, holds data. */
  predicate NewestNonEmpty(d: PartMap) {
    |d| == 0 || |Newest(d).value.data| > 0
  }

  /** The joined data of a run of parts. */
  function ConcatData(ps: seq<Part>): seq<byte> {
    if |ps| == 0 then [] else ConcatData(ps[..|ps| - 1]) + ps[|ps| - 1].data
  }

  /** The sum of the parts' byte lengths. */
  function SumSizes(ps: seq<Part>): nat {
    if |ps| == 0 then 0 else SumSizes(ps[..|ps| - 1]) + |ps[|ps| - 1].data|
  }

  /** The O(1) `data_size` agrees with the length of the reconstructed data. */
  lemma DataSizeIsLength(d: PartMap)
    ensures Contiguous(d) ==> DataSize(d) == |PartsData(d)|
  {
    if Contiguous(d) && |d| > 0 {
      assert StoredAt(d, |d| - 1);
    }
  }

  lemma {:induction false} PartsDataSplit(d: PartMap, i: nat)
    requires i <= |d|
    ensures PartsData(d) == PartsData(d[..i]) + PartsData(d[i..])
  {
    if i < |d| {
      var n := |d|;
      assert d[..n - 1][..i] == d[..i];
      PartsDataSplit(d[..n - 1], i);
      assert d[i..][..|d[i..]| - 1] == d[..n - 1][i..];
      assert d[i..][|d[i..]| - 1] == d[n - 1];
    } else {
      assert d[..i] == d;
    }
  }

  /** The part stored at entry i sits in the reconstructed data at its key, and it
      ends where the next entry (or the whole data) begins. */
  lemma PartAt(d: PartMap, i: nat)
    requires Contiguous(d) && i < |d|
    ensures 0 <= d[i].key && d[i].key + |d[i].value.data| <= |PartsData(d)|
    ensures PartsData(d)[d[i].key..d[i].key + |d[i].value.data|] == d[i].value.data
    ensures i + 1 < |d| ==> d[i + 1].key == d[i].key + |d[i].value.data|
    ensures i + 1 == |d| ==> DataSize(d) == d[i].key + |d[i].value.data|
  {
    assert StoredAt(d, i);
    PartsDataSplit(d, i + 1);
    assert d[..i + 1][..i] == d[..i];
    assert PartsData(d[..i + 1]) == PartsData(d[..i]) + d[i].value.data;
    if i + 1 < |d| {
      assert StoredAt(d, i + 1);
    }
  }

  /** Keys grow strictly with insertion order. */
  lemma KeysIncrease(d: PartMap, i: nat, j: nat)
    requires Contiguous(d) && i < j < |d|
    ensures d[i].key < d[j].key
  {
    assert StoredAt(d, i) && StoredAt(d, j);
    var dj := d[..j];
    PartsDataSplit(dj, i);
    assert dj[..i] == d[..i];
    PartsDataSplit(dj[i..], 1);
    assert dj[i..][..1] == [d[i]];
    assert PartsData([d[i]]) == PartsData([]) + d[i].value.data;
  }

  lemma ContiguousUnique(d: PartMap)
    requires Contiguous(d)
    ensures UniqueKeys(d)
  {
    forall i, j | 0 <= i < j < |d|
      ensures d[i].key != d[j].key
    {
      KeysIncrease(d, i, j);
    }
  }

  /** Every key lies below `data_size`, except that an empty newest part sits at it. */
  lemma KeysBelowSize(d: PartMap, i: nat)
    requires Contiguous(d) && i < |d|
    ensures 0 <= d[i].key <= DataSize(d)
    ensures d[i].key == DataSize(d) ==> i == |d| - 1 && |d[i].value.data| == 0
  {
    PartAt(d, |d| - 1);
    if i < |d| - 1 {
      KeysIncrease(d, i, |d| - 1);
    }
    PartAt(d, i);
  }

  /** `parts_by_byterange[self.data_size] = part` */
  function AddPart(d: PartMap, p: Part): PartMap {
    Set(d, DataSize(d), p)
  }

  lemma ContiguousPrefix(d: PartMap, n: nat)
    requires Contiguous(d) && n <= |d|
    ensures Contiguous(d[..n])
  {
    forall i | 0 <= i < n ensures StoredAt(d[..n], i) {
      assert StoredAt(d, i);
      assert d[..n][..i] == d[..i];
    }
  }

  /** A non-empty run extended by an item keyed at the run's total size stays contiguous. */
  lemma ContiguousSnoc(d: PartMap, x: Item<int, Part>)
    requires Contiguous(d) && NewestNonEmpty(d) && x.key == |PartsData(d)|
    ensures Contiguous(d + [x])
    ensures PartsData(d + [x]) == PartsData(d) + x.value.data
  {
    var r := d + [x];
    assert r[..|r| - 1] == d;
    forall i | 0 <= i < |r| ensures StoredAt(r, i) {
      if i < |d| {
        assert StoredAt(d, i);
        assert r[..i] == d[..i];
      }
    }
  }

  /** With a non-empty newest part, `data_size` is a new key and the part is appended. */
  lemma AddPartAppends(d: PartMap, p: Part)
    requires Contiguous(d) && NewestNonEmpty(d)
    ensures AddPart(d, p) == d + [Item(DataSize(d), p)]
  {
    forall i | 0 <= i < |d| ensures d[i].key != DataSize(d) {
      KeysBelowSize(d, i);
    }
    SetAbsent(d, DataSize(d), p);
  }

  /** With an empty newest part, `data_size` is that part's key and it is overwritten. */
  lemma AddPartReplaces(d: PartMap, p: Part)
    requires Contiguous(d) && !NewestNonEmpty(d)
    ensures AddPart(d, p) == d[..|d| - 1] + [Item(DataSize(d), p)]
    ensures Contiguous(d[..|d| - 1]) && NewestNonEmpty(d[..|d| - 1])
    ensures |PartsData(d[..|d| - 1])| == DataSize(d) && PartsData(d[..|d| - 1]) == PartsData(d)
  {
    var n := |d|;
    ContiguousUnique(d);
    SetPresent(d, n - 1, p);
    assert d[n - 1 := Item(DataSize(d), p)] == d[..n - 1] + [Item(DataSize(d), p)];
    ContiguousPrefix(d, n - 1);
    assert StoredAt(d, n - 1);
    if n >= 2 {
      assert StoredAt(d, n - 2);
      assert d[..n - 1][n - 2] == d[n - 2];
    }
    assert PartsData(d) == PartsData(d[..n - 1]) + [];
  }

  /** Storing a part appends it under the old `data_size` (or overwrites an empty
      newest part, which has that same key), grows `data_size` by its length and
      extends the reconstructed data by its bytes. */
  lemma AddPartFacts(d: PartMap, p: Part)
    requires Contiguous(d)
    ensures NewestNonEmpty(d) ==> AddPart(d, p) == d + [Item(DataSize(d), p)]
    ensures !NewestNonEmpty(d) ==> AddPart(d, p) == d[..|d| - 1] + [Item(DataSize(d), p)]
    ensures Contiguous(AddPart(d, p))
    ensures PartsData(AddPart(d, p)) == PartsData(d) + p.data
    ensures DataSize(AddPart(d, p)) == DataSize(d) + |p.data|
    ensures Get(AddPart(d, p), DataSize(d)) == Some(p)
  {
    DataSizeIsLength(d);
    if NewestNonEmpty(d) {
      AddPartAppends(d, p);
      ContiguousSnoc(d, Item(DataSize(d), p));
    } else {
      AddPartReplaces(d, p);
      ContiguousSnoc(d[..|d| - 1], Item(DataSize(d), p));
    }
    var r := AddPart(d, p);
    DataSizeIsLength(r);
    ContiguousUnique(r);
    GetAt(r, |r| - 1);
  }

  /** The parts of a session, stored one `async_add_part` after another. */
  function AddParts(d: PartMap, ps: seq<Part>): PartMap {
    if |ps| == 0 then d else AddPart(AddParts(d, ps[..|ps| - 1]), ps[|ps| - 1])
  }

  /** After any run of `async_add_part` calls, `data_size` is the sum of all part
      lengths and `get_data()` the concatenation of all part data, in call order. */
  lemma {:induction false} AddPartsAccumulate(d: PartMap, ps: seq<Part>)
    requires Contiguous(d)
    ensures Contiguous(AddParts(d, ps))
    ensures PartsData(AddParts(d, ps)) == PartsData(d) + ConcatData(ps)
    ensures DataSize(AddParts(d, ps)) == DataSize(d) + SumSizes(ps)
  {
    if |ps| > 0 {
      var ps' := ps[..|ps| - 1];
      AddPartsAccumulate(d, ps');
      AddPartFacts(AddParts(d, ps'), ps[|ps| - 1]);
    }
  }

  /** When no part is empty, a fresh segment holds every part, in call order,
      each under the total size of the parts before it. */
  lemma {:induction false} AddPartsKeepsEach(ps: seq<Part>)
    requires forall i | 0 <= i < |ps| :: |ps[i].data| > 0
    ensures |AddParts([], ps)| == |ps|
    ensures forall i | 0 <= i < |ps| ::
      AddParts([], ps)[i] == Item(SumSizes(ps[..i]) as int, ps[i])
  {
    if |ps| > 0 {
      var n := |ps|;
      var ps' := ps[..n - 1];
      AddPartsKeepsEach(ps');
      var d := AddParts([], ps');
      assert Contiguous([]);
      AddPartsAccumulate([], ps');
      assert NewestNonEmpty(d) by {
        if |d| > 0 {
          assert d[n - 2].value == ps'[n - 2];
        }
      }
      AddPartAppends(d, ps[n - 1]);
      var r := d + [Item(DataSize(d), ps[n - 1])];
      assert AddParts([], ps) == r;
      forall i | 0 <= i < n
        ensures r[i] == Item(SumSizes(ps[..i]) as int, ps[i])
      {
        if i < n - 1 {
          assert ps'[..i] == ps[..i];
        } else {
          assert ps[..i] == ps';
        }
      }
    }
  }

  /** `end_loc`: a byte offset, or `float("inf")` for "to the end". */
  datatype EndLoc = Offset(n: int) | Unbounded

  /** What one turn of the `get_aggregating_bytes` loop does: wait for more data
      (yield `b""` without moving), stop, or yield a chunk and move to `next`;
      `final` marks the trimmed chunk after which the generator returns. */
  datatype Yield = Wait | Stop | Chunk(bytes: seq<byte>, next: int, final: bool)

  /** Python's `s[:k]`, where a negative k counts from the end. */
  function PySliceTo(s: seq<byte>, k: int): (r: seq<byte>)
    ensures 0 <= k <= |s| ==> r == s[..k]
  {
    if k >= 0 then s[..if k <= |s| then k else |s|]
    else s[..if |s| + k >= 0 then |s| + k else 0]
  }

  /** One turn of the loop in `get_aggregating_bytes`, at cursor `pos`. */
  function AggregateStep(d: PartMap, complete: bool, pos: int, end: EndLoc): Yield {
    match Get(d, pos)
    case None => if complete then Stop else Wait
    case Some(p) =>
      var next := pos + |p.data|;
      if end.Offset? && next >= end.n then
        Chunk(PySliceTo(p.data, |p.data| + end.n - next), next, true)
      else Chunk(p.data, next, false)
  }

  /** On a well-formed segment the step yields exactly the reconstructed bytes from
      the cursor, up to the next part boundary or, trimmed, up to `end_loc`; with no
      part at the cursor it waits while the segment is incomplete and stops once it
      is complete. */
  lemma AggregateStepReads(d: PartMap, complete: bool, pos: int, end: EndLoc)
    requires Contiguous(d)
    ensures var y := AggregateStep(d, complete, pos, end);
      y.Wait? <==> !complete && forall i | 0 <= i < |d| :: d[i].key != pos
    ensures var y := AggregateStep(d, complete, pos, end);
      y.Stop? <==> complete && forall i | 0 <= i < |d| :: d[i].key != pos
    ensures var y := AggregateStep(d, complete, pos, end);
      y.Chunk? ==> 0 <= pos <= y.next <= |PartsData(d)| && DataSize(d) == |PartsData(d)|
    ensures var y := AggregateStep(d, complete, pos, end);
      y.Chunk? && pos == y.next ==> y.next == DataSize(d)
    ensures var y := AggregateStep(d, complete, pos, end);
      y.Chunk? && y.next != DataSize(d) ==> exists j | 0 <= j < |d| :: d[j].key == y.next
    ensures var y := AggregateStep(d, complete, pos, end);
      y.Chunk? && !y.final ==> y.bytes == PartsData(d)[pos..y.next]
    ensures var y := AggregateStep(d, complete, pos, end);
      y.Chunk? && y.final ==> end.Offset? && end.n <= y.next
    ensures var y := AggregateStep(d, complete, pos, end);
      y.Chunk? && y.final && pos < end.n ==> y.bytes == PartsData(d)[pos..end.n]
  {
    var y := AggregateStep(d, complete, pos, end);
    if y.Chunk? {
      var i :| 0 <= i < |d| && d[i].key == pos;
      ContiguousUnique(d);
      GetAt(d, i);
      PartAt(d, i);
      DataSizeIsLength(d);
      KeysBelowSize(d, i);
      if i + 1 < |d| {
        assert d[i + 1].key == y.next;
      }
    }
  }

  /** A reader whose cursor has caught up with the writer waits without moving, and
      the next stored part is exactly what it yields afterwards. */
  lemma WaitThenYieldNext(d: PartMap, p: Part, end: EndLoc, complete: bool)
    requires Contiguous(d) && NewestNonEmpty(d) && |p.data| > 0
    requires end.Unbounded? || DataSize(d) + |p.data| < end.n
    ensures AggregateStep(d, false, DataSize(d), end) == Wait
    ensures AggregateStep(AddPart(d, p), complete, DataSize(d), end)
         == Chunk(p.data, DataSize(d) + |p.data|, false)
  {
    forall i | 0 <= i < |d| ensures d[i].key != DataSize(d) {
      KeysBelowSize(d, i);
    }
    AddPartFacts(d, p);
  }

  /** The chunks joined in order, as the consumer of the generator sees the bytes. */
  function Flatten(chunks: seq<seq<byte>>): seq<byte> {
    if |chunks| == 0 then [] else chunks[0] + Flatten(chunks[1..])
  }

  /** The first `limit` yields of `get_aggregating_bytes` from cursor `pos` on a segment
      that does not change meanwhile, and whether the generator returned within them. */
  function Aggregate(d: PartMap, complete: bool, pos: int, end: EndLoc, limit: nat)
    : (seq<seq<byte>>, bool)
    decreases limit
  {
    if limit == 0 then ([], false)
    else
      match AggregateStep(d, complete, pos, end)
      case Stop => ([], true)
      case Wait =>
        var rest := Aggregate(d, complete, pos, end, limit - 1);
        ([[]] + rest.0, rest.1)
      case Chunk(bytes, next, final) =>
        if final then ([bytes], true)
        else
          var rest := Aggregate(d, complete, next, end, limit - 1);
          ([bytes] + rest.0, rest.1)
  }

  /** One turn of the generator followed by the remaining yields. */
  lemma AggregateUnfold(d: PartMap, complete: bool, pos: int, end: EndLoc, limit: nat)
    requires limit > 0
    ensures var y := AggregateStep(d, complete, pos, end);
      var r := Aggregate(d, complete, pos, end, limit);
      && (y.Stop? ==> r == ([], true))
      && (y.Wait? ==> r == ([[]] + Aggregate(d, complete, pos, end, limit - 1).0, Aggregate(d, complete, pos, end, limit - 1).1))
      && (y.Chunk? && y.final ==> r == ([y.bytes], true))
      && (y.Chunk? && !y.final ==> r == ([y.bytes] + Aggregate(d, complete, y.next, end, limit - 1).0, Aggregate(d, complete, y.next, end, limit - 1).1))
  {
  }

  /** Where entry i begins: its key, or `data_size` just past the newest entry. */
  function Boundary(d: PartMap, i: nat): int
    requires i <= |d|
  {
    if i < |d| then d[i].key else DataSize(d)
  }

  /** Where reading stops: `end_loc` when it falls inside the data, else the end. */
  function ReadEnd(d: PartMap, end: EndLoc): int {
    if end.Offset? && end.n < DataSize(d) then end.n else DataSize(d)
  }

  /** While the segment is incomplete and nothing is stored at the cursor, every
      yield is `b""` and the generator never returns. */
  lemma {:induction false} AggregateWaits(d: PartMap, pos: int, end: EndLoc, limit: nat)
    requires forall i | 0 <= i < |d| :: d[i].key != pos
    ensures var (chunks, done) := Aggregate(d, false, pos, end, limit);
      !done && |chunks| == limit && forall k | 0 <= k < limit :: chunks[k] == []
  {
    if limit > 0 {
      AggregateWaits(d, pos, end, limit - 1);
      assert AggregateStep(d, false, pos, end) == Wait;
    }
  }

  /** On a complete segment, reading from a part boundary yields exactly the stored
      bytes from there up to `end_loc` (or the end of the data) and then returns,
      within one yield per remaining part and one more. An empty newest part is
      excluded only for reads that run past the data. */
  lemma {:induction false} AggregateReadsRange(d: PartMap, i: nat, end: EndLoc, limit: nat)
    requires Contiguous(d) && i <= |d|
    requires NewestNonEmpty(d) || (end.Offset? && end.n <= DataSize(d))
    requires end.Unbounded? || Boundary(d, i) <= end.n
    requires limit > |d| - i
    ensures 0 <= Boundary(d, i) <= ReadEnd(d, end) <= |PartsData(d)|
    ensures Aggregate(d, true, Boundary(d, i), end, limit).1
    ensures Flatten(Aggregate(d, true, Boundary(d, i), end, limit).0)
      == PartsData(d)[Boundary(d, i)..ReadEnd(d, end)]
    decreases |d| - i
  {
    var pos := Boundary(d, i);
    DataSizeIsLength(d);
    if i == |d| && NewestNonEmpty(d) {
      forall j | 0 <= j < |d| ensures d[j].key != pos {
        KeysBelowSize(d, j);
      }
      assert AggregateStep(d, true, pos, end) == Stop;
    } else if i == |d| {
      // the empty newest part sits at `data_size`, which is `end_loc`
      var last := |d| - 1;
      ContiguousUnique(d);
      GetAt(d, last);
      var y := AggregateStep(d, true, pos, end);
      assert y == Chunk([], pos, true);
      assert Flatten([y.bytes]) == [] + Flatten([]);
    } else {
      StepAtBoundary(d, i, end);
      var y := AggregateStep(d, true, pos, end);
      var next := Boundary(d, i + 1);
      if y.final {
        assert Flatten([y.bytes]) == y.bytes + Flatten([]);
      } else {
        AggregateReadsRange(d, i + 1, end, limit - 1);
        var rest := Aggregate(d, true, next, end, limit - 1);
        assert Flatten([y.bytes] + rest.0) == y.bytes + Flatten(rest.0) by {
          assert ([y.bytes] + rest.0)[1..] == rest.0;
        }
      }
    }
  }

  /** At the boundary of a stored part the step yields that part's bytes (trimmed at
      `end_loc`) and moves to the next boundary. */
  lemma StepAtBoundary(d: PartMap, i: nat, end: EndLoc)
    requires Contiguous(d) && i < |d|
    requires end.Unbounded? || Boundary(d, i) <= end.n
    ensures var y := AggregateStep(d, true, Boundary(d, i), end);
      && y.Chunk? && y.next == Boundary(d, i + 1)
      && 0 <= Boundary(d, i) <= y.next <= DataSize(d) == |PartsData(d)|
    ensures var y := AggregateStep(d, true, Boundary(d, i), end);
      y.final ==> end.Offset? && y.bytes == PartsData(d)[Boundary(d, i)..end.n] && end.n <= y.next
    ensures var y := AggregateStep(d, true, Boundary(d, i), end);
      !y.final ==> y.bytes == PartsData(d)[Boundary(d, i)..y.next]
  {
    var pos := Boundary(d, i);
    PartAt(d, i);
    ContiguousUnique(d);
    GetAt(d, i);
    AggregateStepReads(d, true, pos, end);
    var y := AggregateStep(d, true, pos, end);
    if y.final && pos == end.n {
      assert y.bytes == PySliceTo(d[i].value.data, 0);
    }
  }

  /** On a complete segment a cursor that is not a part boundary yields nothing. */
  lemma AggregateStopsOffBoundary(d: PartMap, pos: int, end: EndLoc, limit: nat)
    requires forall i | 0 <= i < |d| :: d[i].key != pos
    requires limit > 0
    ensures Aggregate(d, true, pos, end, limit) == ([], true)
  {
  }
}
