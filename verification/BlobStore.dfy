/**
 Blob bytes in a large object: written piece by piece over the requests of an upload session,
 read back in 64K chunks for a byte range, and hashed in the same chunks.
 */
module BlobStore {
  import opened Wrappers
  import opened Numerals
  import opened RangeHeader

  type Bytes = seq<byte>

  const READ_CHUNK: nat := 65536

  // ---------------------------------------------------------------- large objects

  function Zeros(n: nat): Bytes {
    seq(n, i => 0)
  }

  /** lo_put: bytes between the old end and the offset read as zeros. */
  function Put(data: Bytes, offset: nat, chunk: Bytes): Bytes {
    if offset >= |data| then data + Zeros(offset - |data|) + chunk
    else data[..offset] + chunk + if offset + |chunk| <= |data| then data[offset + |chunk|..] else []
  }

  function Min(a: int, b: int): int {
    if a < b then a else b
  }

  /** loread: what is left behind the cursor, at most `want` bytes. */
  function Load(data: Bytes, cursor: nat, want: nat): Bytes {
    if cursor >= |data| then [] else data[cursor..Min(cursor + want, |data|)]
  }

  function Flatten(chunks: seq<Bytes>): Bytes {
    if chunks == [] then [] else Flatten(chunks[..|chunks| - 1]) + chunks[|chunks| - 1]
  }

  // ------------------------------------------------------------------------ writes

  /** streamWriteBlob: empty pieces are skipped. It stops where `lo_put` fails, if it does. */
  method StreamWrite(data: Bytes, startOffset: nat, pieces: seq<Bytes>, failAt: Option<nat>)
    returns (after: Bytes, bytesWritten: nat, ok: bool)
    requires startOffset <= |data|
    ensures ok <==> failAt.None? || failAt.value >= |pieces| || pieces[failAt.value] == []
    ensures exists k: nat :: k <= |pieces| && after == Put(data, startOffset, Flatten(pieces[..k]))
                             && (ok ==> k == |pieces|) && bytesWritten == |Flatten(pieces[..k])|
  {
    after := data;
    bytesWritten := 0;
    var offset := startOffset;
    assert Flatten(pieces[..0]) == [];
    for k := 0 to |pieces|
      invariant bytesWritten == |Flatten(pieces[..k])| && offset == startOffset + bytesWritten
      invariant after == Put(data, startOffset, Flatten(pieces[..k]))
      invariant failAt.Some? && failAt.value < k ==> pieces[failAt.value] == []
    {
      var piece := pieces[k];
      assert pieces[..k + 1][..k] == pieces[..k];
      if |piece| > 0 {
        if failAt == Some(k) {
          return after, bytesWritten, false;
        }
        PutTwice(data, startOffset, Flatten(pieces[..k]), piece);
        after := Put(after, offset, piece);
      } else {
        assert Flatten(pieces[..k]) + piece == Flatten(pieces[..k]);
      }
      offset := offset + |piece|;
      bytesWritten := bytesWritten + |piece|;
    }
    assert pieces[..|pieces|] == pieces;
    ok := true;
  }

  /** Two adjacent writes are one. */
  lemma PutTwice(data: Bytes, offset: nat, a: Bytes, b: Bytes)
    requires offset <= |data|
    ensures Put(Put(data, offset, a), offset + |a|, b) == Put(data, offset, a + b)
  {
    var first := Put(data, offset, a);
    var both := Put(data, offset, a + b);
    assert |Put(first, offset + |a|, b)| == |both|;
    forall i | 0 <= i < |both|
      ensures Put(first, offset + |a|, b)[i] == both[i]
    {
    }
  }

  /** A write leaves every other byte as it was, and zeros where it jumped over the end. */
  lemma PutMeans(data: Bytes, offset: nat, chunk: Bytes)
    ensures var after := Put(data, offset, chunk);
            && (offset + |chunk| >= |data| ==> |after| == offset + |chunk|)
            && (offset + |chunk| < |data| ==> |after| == |data|)
            && forall i | 0 <= i < |after| ::
                 after[i] == if offset <= i < offset + |chunk| then chunk[i - offset] else if i < |data| then data[i] else 0
  {
  }

  lemma PutFresh(chunk: Bytes)
    ensures Put([], 0, chunk) == chunk
  {
  }

  // ------------------------------------------------------------------------- reads

  /** RFC 9110, section 14.1.2: an inclusive range, clipped at the end of the data. */
  function Slice(data: Bytes, start: nat, end: Option<int>): Bytes {
    var stop := if end.Some? then Min(end.value + 1, |data|) else |data|;
    if start < stop then data[start..stop] else []
  }

  /** From the start through the last position, both included, as far as there are bytes. */
  lemma SliceMeans(data: Bytes, start: nat, end: Option<int>)
    ensures var s := Slice(data, start, end);
            && (end.None? ==> |s| == if start < |data| then |data| - start else 0)
            && (end.Some? ==> |s| == if start > end.value || start >= |data| then 0
                                     else if end.value < |data| then end.value - start + 1 else |data| - start)
            && forall i | 0 <= i < |s| :: s[i] == data[start + i]
  {
    var stop := if end.Some? then Min(end.value + 1, |data|) else |data|;
    assert Slice(data, start, end) == if start < stop then data[start..stop] else [];
  }

  /** The read loop: chunks of at most 64K until the range or the data is exhausted. */
  method ReadRange(data: Bytes, start: nat, end: Option<int>) returns (pushed: seq<Bytes>)
    ensures Flatten(pushed) == Slice(data, start, end)
    ensures forall i | 0 <= i < |pushed| :: 0 < |pushed[i]| <= READ_CHUNK
  {
    var left: Option<int> := if end.Some? then Some(end.value - start + 1) else None;
    var cursor := start;
    pushed := [];
    while true
      invariant Pushed(data, start, end, cursor, pushed)
      invariant left == if end.Some? then Some(end.value - cursor + 1) else None
      decreases if cursor < |data| then |data| - cursor else 0
    {
      var want := if left.None? then READ_CHUNK else Min(READ_CHUNK, left.value);
      if want <= 0 {
        break;
      }
      var chunk := Load(data, cursor, want);
      if |chunk| == 0 {
        break;
      }
      left := if left.Some? then Some(left.value - |chunk|) else None;
      NextChunk(data, start, end, cursor, want, pushed);
      pushed := pushed + [chunk];
      cursor := cursor + |chunk|;
    }
    AllPushed(data, start, end, cursor, pushed);
  }

  function Between(data: Bytes, start: nat, cursor: nat): Bytes {
    if start < cursor <= |data| then data[start..cursor] else []
  }

  /** The chunks so far are the bytes from the start to the cursor, which is still within range and data. */
  predicate Pushed(data: Bytes, start: nat, end: Option<int>, cursor: nat, pushed: seq<Bytes>) {
    && start <= cursor && (cursor > start ==> cursor <= |data| && (end.Some? ==> cursor <= end.value + 1))
    && Flatten(pushed) == Between(data, start, cursor)
    && forall i | 0 <= i < |pushed| :: 0 < |pushed[i]| <= READ_CHUNK
  }

  lemma NextChunk(data: Bytes, start: nat, end: Option<int>, cursor: nat, want: nat, pushed: seq<Bytes>)
    requires Pushed(data, start, end, cursor, pushed) && Load(data, cursor, want) != []
    requires want <= READ_CHUNK && (end.Some? ==> want <= end.value - cursor + 1)
    ensures var chunk := Load(data, cursor, want);
            cursor + |chunk| <= |data| && Pushed(data, start, end, cursor + |chunk|, pushed + [chunk])
  {
    var chunk := Load(data, cursor, want);
    assert (pushed + [chunk])[..|pushed|] == pushed;
    assert data[start..cursor + |chunk|] == data[start..cursor] + chunk;
  }

  lemma AllPushed(data: Bytes, start: nat, end: Option<int>, cursor: nat, pushed: seq<Bytes>)
    requires Pushed(data, start, end, cursor, pushed)
    requires cursor >= |data| || (end.Some? && end.value - cursor + 1 <= 0)
    ensures Flatten(pushed) == Slice(data, start, end)
  {
  }

  /** Whatever the chunking of an upload to a fresh object, a range of it reads back as that slice of the whole. */
  method WriteThenRead(pieces: seq<Bytes>, start: nat, end: Option<int>) returns (pushed: seq<Bytes>)
    ensures Flatten(pushed) == Slice(Flatten(pieces), start, end)
  {
    var data, written, ok := StreamWrite([], 0, pieces, None);
    assert pieces[..|pieces|] == pieces;
    PutFresh(Flatten(pieces));
    pushed := ReadRange(data, start, end);
  }

  // ------------------------------------------------------------------------ digest

  /** A hash that may be fed piecewise. */
  datatype Hash<!S> = Hash(init: S, update: (S, Bytes) -> S, digest: S -> string)

  /** Feeding two pieces is feeding both at once. */
  predicate FeedsBoth<S(==)>(h: Hash<S>, s: S, a: Bytes, b: Bytes) {
    h.update(h.update(s, a), b) == h.update(s, a + b)
  }

  ghost predicate Piecewise<S(!new)>(h: Hash<S>) {
    && (forall s, a, b :: FeedsBoth(h, s, a, b))
    && h.update(h.init, []) == h.init
  }

  lemma Fed<S(!new)>(h: Hash<S>, data: Bytes, size: nat, chunk: Bytes)
    requires Piecewise(h) && size <= |data| && chunk == Load(data, size, READ_CHUNK) && chunk != []
    ensures size + |chunk| <= |data|
    ensures h.update(h.update(h.init, data[..size]), chunk) == h.update(h.init, data[..size + |chunk|])
  {
    assert data[..size] + chunk == data[..size + |chunk|];
    assert FeedsBoth(h, h.init, data[..size], chunk);
  }

  /** The chunked digest is the digest of the whole, and the size is the size of the whole. */
  method ComputeDigest<S(!new)>(h: Hash<S>, data: Bytes) returns (digest: string, size: nat)
    requires Piecewise(h)
    ensures digest == h.digest(h.update(h.init, data)) && size == |data|
  {
    var state := h.init;
    size := 0;
    assert data[..0] == [] && h.update(h.init, []) == h.init;
    while true
      invariant size <= |data| && state == h.update(h.init, data[..size])
      decreases |data| - size
    {
      var chunk := Load(data, size, READ_CHUNK);
      if |chunk| == 0 {
        break;
      }
      Fed(h, data, size, chunk);
      state := h.update(state, chunk);
      size := size + |chunk|;
    }
    assert data[..size] == data;
    digest := h.digest(state);
  }

  // ----------------------------------------------------------------------- sessions

  /** An upload session; `acked` is what its answered requests have sent so far. */
  datatype Session = Session(data: Bytes, received: nat, acked: Bytes)

  /** A request body of which `stored` bytes reached the object, and whether the request was answered. */
  datatype Request = Request(body: Bytes, stored: nat)

  const FRESH := Session([], 0, [])

  /** How many bytes of its body a request stores. */
  function Stored(r: Request): nat {
    if r.stored >= |r.body| then |r.body| else r.stored
  }

  function Patch(s: Session, r: Request): Session {
    if r.stored >= |r.body| then Session(Put(s.data, s.received, r.body), s.received + |r.body|, s.acked + r.body)
    else s.(data := Put(s.data, s.received, r.body[..r.stored]))
  }

  function Upload(rs: seq<Request>): Session {
    if rs == [] then FRESH else Patch(Upload(rs[..|rs| - 1]), rs[|rs| - 1])
  }

  /** How far any request has written; one that stores nothing writes nowhere. */
  function HighWater(rs: seq<Request>): nat {
    if rs == [] then 0
    else
      var front, r := rs[..|rs| - 1], rs[|rs| - 1];
      var written := Upload(front).received + Stored(r);
      if Stored(r) > 0 && written > HighWater(front) then written else HighWater(front)
  }

  lemma PutStart(data: Bytes, offset: nat, chunk: Bytes)
    requires offset <= |data|
    ensures var after := Put(data, offset, chunk);
            && |after| == (if offset + |chunk| > |data| then offset + |chunk| else |data|)
            && after[..offset + |chunk|] == data[..offset] + chunk
            && after[..offset] == data[..offset]
  {
  }

  /** Whatever requests failed and were sent again, the object starts with exactly the acknowledged bytes. */
  lemma {:induction false} UploadKeepsAcked(rs: seq<Request>)
    ensures var s := Upload(rs);
            s.received == |s.acked| && s.received <= |s.data| && s.data[..s.received] == s.acked
            && |s.data| == HighWater(rs)
  {
    if rs != [] {
      UploadKeepsAcked(rs[..|rs| - 1]);
      var s, r := Upload(rs[..|rs| - 1]), rs[|rs| - 1];
      PutStart(s.data, s.received, if r.stored >= |r.body| then r.body else r.body[..r.stored]);
    }
  }

  /**
   The size check at completion passes exactly when no failed request wrote beyond what is
   acknowledged in the end, and then the object is what the answered requests sent.
   */
  lemma SizeCheckIff(rs: seq<Request>)
    ensures |Upload(rs).data| == Upload(rs).received <==> HighWater(rs) <= Upload(rs).received
    ensures |Upload(rs).data| == Upload(rs).received ==> Upload(rs).data == Upload(rs).acked
  {
    UploadKeepsAcked(rs);
    assert Upload(rs).data[..|Upload(rs).data|] == Upload(rs).data;
  }

  /** A failed request followed by a shorter one leaves a tail, and the commit is refused. */
  lemma LeftoverTail(a: Request, b: Request)
    requires |b.body| < a.stored < |a.body| && b.stored >= |b.body|
    ensures |Upload([a, b]).data| != Upload([a, b]).received
  {
    assert [a, b][..1] == [a] && [a][..0] == [];
    assert Upload([a]) == Patch(FRESH, a);
    assert Upload([a, b]) == Patch(Upload([a]), b);
  }

  // ------------------------------------------------------------------------- ranges

  /** An accepted range is served in full: the bytes sent are as many as announced, and none beyond the blob. */
  lemma RangeServed(header: string, data: Bytes)
    requires ParseRange(header, |data|).Range?
    ensures var r := ParseRange(header, |data|);
            && 0 <= r.start && r.end < |data|
            && |Slice(data, r.start, Some(r.end))| == r.end - r.start + 1
            && forall i | r.start <= i <= r.end :: Slice(data, r.start, Some(r.end))[i - r.start] == data[i]
  {
  }

  /** A suffix of n bytes is the last n bytes, or the whole blob when it is shorter. */
  lemma SuffixRange(digits: string, data: Bytes)
    requires digits != "" && AllDigits(digits) && ParseInt(digits) > 0
    ensures var r := ParseRange("bytes=-" + digits, |data|);
            r.Range? && r.start >= 0
            && Slice(data, r.start, Some(r.end)) == data[if |data| > ParseInt(digits) then |data| - ParseInt(digits) else 0..]
  {
    SuffixSpec(digits);
  }
}
