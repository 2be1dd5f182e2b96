/**
 The child's view of a Parquet file: the byte ranges that were admitted, and an
 error everywhere else.
 */
module SparseFiles {
  import opened Wrappers
  import opened Bytes
  import opened PreviewLimits

  datatype Segment = Segment(offset: int, data: Bytes)

  predicate Holds(g: Segment, i: int) {
    g.offset <= i < g.offset + |g.data|
  }

  /** Some segment holds the byte at i. */
  predicate Known(segments: seq<Segment>, i: int) {
    exists k :: 0 <= k < |segments| && Holds(segments[k], i)
  }

  /** Every byte of [lo, hi) is held by some segment; they may overlap, in any order. */
  predicate Covered(segments: seq<Segment>, lo: int, hi: int) {
    forall i :: lo <= i < hi ==> Known(segments, i)
  }

  /** A segment shows the file's own bytes at its offset. */
  predicate TrueTo(g: Segment, file: Bytes) {
    0 <= g.offset && g.offset + |g.data| <= |file| && file[g.offset..g.offset + |g.data|] == g.data
  }

  predicate Truthful(segments: seq<Segment>, file: Bytes) {
    forall k :: 0 <= k < |segments| ==> TrueTo(segments[k], file)
  }

  datatype ReadError = ExceedsBudget | MissingSegment | InvalidOffset

  datatype Whence = Set | Current | End | Unknown

  /** Where a read of n bytes at position p stops in a file of the given size. */
  function Clip(size: int, p: int, n: int): int {
    if size < p + n then size else p + n
  }

  lemma TrueSlice(g: Segment, file: Bytes, p: int, count: nat)
    requires TrueTo(g, file) && Holds(g, p) && p + count <= g.offset + |g.data|
    ensures g.data[p - g.offset..p - g.offset + count] == file[p..p + count]
  {
    var lo := p - g.offset;
    var part, wanted := g.data[lo..lo + count], file[p..p + count];
    forall i | 0 <= i < count ensures part[i] == wanted[i] {
      assert file[g.offset..g.offset + |g.data|][lo + i] == file[p + i];
    }
  }

  class SparseFile {
    const size: int
    const segments: seq<Segment>
    var position: int

    ghost predicate Valid()
      reads this
    {
      0 <= position <= size
    }

    constructor (size: int, segments: seq<Segment>)
      requires 0 <= size
      ensures Valid() && position == 0 && this.size == size && this.segments == segments
    {
      this.size, this.segments := size, segments;
      position := 0;
    }

    method Seek(offset: int, whence: Whence) returns (r: Result<int, ReadError>)
      requires Valid()
      modifies this
      ensures Valid()
      ensures var target := match whence
                case Set => Some(offset)
                case Current => Some(old(position) + offset)
                case End => Some(size + offset)
                case Unknown => None;
              if target.Some? && 0 <= target.value <= size
              then r == Ok(target.value) && position == target.value
              else r == Err(InvalidOffset) && position == old(position)
    {
      var target := if whence.Set? then offset else if whence.Current? then position + offset else size + offset;
      if whence.Unknown? || !(0 <= target <= size) { return Err(InvalidOffset); }
      position := target;
      return Ok(target);
    }

    /** The inner loop of `read`: the first segment that holds p, if any does. */
    method Find(p: int) returns (found: Option<Segment>)
      ensures found.Some? <==> Known(segments, p)
      ensures found.Some? ==> found.value in segments && Holds(found.value, p)
    {
      for k := 0 to |segments|
        invariant forall j :: 0 <= j < k ==> !Holds(segments[j], p)
      {
        if segments[k].offset <= p < segments[k].offset + |segments[k].data| { return Some(segments[k]); }
      }
      return None;
    }

    /**
     A read gives the bytes of the file, or fails and moves nothing: it succeeds
     exactly when the request is within budget and every byte of it is covered.
     */
    method Read(n: int, ghost file: Bytes) returns (r: Result<Bytes, ReadError>)
      requires Valid() && |file| == size && Truthful(segments, file)
      modifies this
      ensures Valid()
      ensures var p, end := old(position), Clip(size, old(position), n);
              if 0 <= n <= MAX_BYTES && Covered(segments, p, end)
              then r == Ok(file[p..end]) && position == end
              else r == Err(if 0 <= n <= MAX_BYTES then MissingSegment else ExceedsBudget) && position == old(position)
    {
      if n < 0 || n > MAX_BYTES { return Err(ExceedsBudget); }
      var end := Clip(size, position, n);
      var data: Bytes := [];
      var p := position;
      while p < end
        invariant position == old(position) <= p <= end <= size
        invariant data == file[position..p] && Covered(segments, position, p)
        decreases end - p
      {
        var g := Find(p);
        if g.None? { return Err(MissingSegment); }
        var stop := g.value.offset + |g.value.data|;
        var count := if end - p < stop - p then end - p else stop - p;
        TrueSlice(g.value, file, p, count);
        forall i | p <= i < p + count ensures Known(segments, i) {
          var k :| 0 <= k < |segments| && segments[k] == g.value;
          assert Holds(segments[k], i);
        }
        data := data + g.value.data[p - g.value.offset..p - g.value.offset + count];
        p := p + count;
      }
      position := end;
      return Ok(data);
    }

    /** `readinto`: the target gets what a read gives and is otherwise left alone. */
    method ReadInto(target: array<Byte>, ghost file: Bytes) returns (r: Result<int, ReadError>)
      requires Valid() && |file| == size && Truthful(segments, file)
      modifies this, target
      ensures Valid()
      ensures var p, end := old(position), Clip(size, old(position), target.Length);
              if target.Length <= MAX_BYTES && Covered(segments, p, end)
              then r == Ok(end - p) && position == end && target[..] == file[p..end] + old(target[..])[end - p..]
              else r.Err? && position == old(position) && target[..] == old(target[..])
      ensures r.Err? ==> r.error == if target.Length <= MAX_BYTES then MissingSegment else ExceedsBudget
    {
      var data := Read(target.Length, file);
      if data.Err? { return Err(data.error); }
      var got := data.value;
      forall i | 0 <= i < |got| { target[i] := got[i]; }
      assert target[..] == got + old(target[..])[|got|..];
      return Ok(|got|);
    }
  }
}
