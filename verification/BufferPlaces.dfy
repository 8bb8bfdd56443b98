/**
 Where the logger's buffers are: the three places an appender can reach and the three the backend
 works on.  Moving a pointer from one place to another is a matter of values; the heap does not
 enter into it.
 */
module BufferPlaces {
  import opened FixedBuffers
  import P = LogProtocol

  /** The pointers of the logger, and what each buffer in play holds. */
  datatype Places = Places(
    current: FixedBuffer,
    next: FixedBuffer?,
    full: seq<FixedBuffer>,
    spare1: FixedBuffer?,
    spare2: FixedBuffer?,
    batch: seq<FixedBuffer>,
    held: map<FixedBuffer, P.Chunk>
  )

  // ---------------------------------------------------------------- ownership

  predicate NoneTwice(bs: seq<FixedBuffer>) {
    forall i, j | 0 <= i < j < |bs| :: bs[i] != bs[j]
  }

  predicate NoneCommon(bs: seq<FixedBuffer>, cs: seq<FixedBuffer>) {
    forall i, j | 0 <= i < |bs| && 0 <= j < |cs| :: bs[i] != cs[j]
  }

  predicate Outside(b: FixedBuffer?, bs: seq<FixedBuffer>) {
    b != null ==> forall i | 0 <= i < |bs| :: bs[i] != b
  }

  predicate Differ(b: FixedBuffer?, c: FixedBuffer?) { b != null && c != null ==> b != c }

  /** No buffer an appender can reach is in two places. */
  predicate FrontApart(p: Places) {
    Differ(p.current, p.next) && Outside(p.current, p.full) && Outside(p.next, p.full) && NoneTwice(p.full)
  }

  /** No buffer of the backend is in two places. */
  predicate BackApart(p: Places) {
    Differ(p.spare1, p.spare2) && Outside(p.spare1, p.batch) && Outside(p.spare2, p.batch) && NoneTwice(p.batch)
  }

  /** What an appender can reach and what the backend works on without the lock have nothing in
      common. */
  predicate SidesApart(p: Places) {
    && Differ(p.current, p.spare1) && Differ(p.current, p.spare2) && Outside(p.current, p.batch)
    && Differ(p.next, p.spare1) && Differ(p.next, p.spare2) && Outside(p.next, p.batch)
    && Outside(p.spare1, p.full) && Outside(p.spare2, p.full) && NoneCommon(p.full, p.batch)
  }

  predicate Separate(p: Places) { FrontApart(p) && BackApart(p) && SidesApart(p) }

  // ---------------------------------------------------------------- contents

  predicate Puts(held: map<FixedBuffer, P.Chunk>, b: FixedBuffer?, present: bool) {
    (b != null <==> present) && (b != null ==> b in held && held[b] == [])
  }

  predicate PutsAll(held: map<FixedBuffer, P.Chunk>, bs: seq<FixedBuffer>, chunks: seq<P.Chunk>) {
    |bs| == |chunks| && forall i | 0 <= i < |bs| :: bs[i] in held && held[bs[i]] == chunks[i]
  }

  /** The buffers are where the protocol has them, and hold what it says. */
  predicate Placed(p: Places, s: P.State) {
    && p.current in p.held && p.held[p.current] == s.current
    && Puts(p.held, p.next, s.next) && PutsAll(p.held, p.full, s.full)
    && Puts(p.held, p.spare1, s.spare1) && Puts(p.held, p.spare2, s.spare2) && PutsAll(p.held, p.batch, s.batch)
  }

  predicate Matches(p: Places, s: P.State) { Separate(p) && Placed(p, s) }

  lemma PutsAllElsewhere(held: map<FixedBuffer, P.Chunk>, bs: seq<FixedBuffer>, chunks: seq<P.Chunk>,
                         b: FixedBuffer, chunk: P.Chunk)
    requires PutsAll(held, bs, chunks) && Outside(b, bs)
    ensures PutsAll(held[b := chunk], bs, chunks)
  {
  }

  // ---------------------------------------------------------------- the moves

  /** The current buffer holds something else. */
  function Rewritten(p: Places, chunk: P.Chunk): Places { p.(held := p.held[p.current := chunk]) }

  lemma RewrittenMatches(p: Places, s: P.State, chunk: P.Chunk)
    requires Matches(p, s)
    ensures Matches(Rewritten(p, chunk), s.(current := chunk))
  {
    PutsAllElsewhere(p.held, p.full, s.full, p.current, chunk);
    PutsAllElsewhere(p.held, p.batch, s.batch, p.current, chunk);
  }

  /** The full buffer joins the queue, and `b`, the next buffer or a new one, takes its place. */
  function Rotated(p: Places, b: FixedBuffer): Places {
    p.(current := b, next := null, full := p.full + [p.current], held := p.held[b := []])
  }

  predicate Spare(p: Places, b: FixedBuffer) { if p.next == null then b !in p.held else b == p.next }

  lemma RotatedMatches(p: Places, s: P.State, b: FixedBuffer)
    requires Matches(p, s) && Spare(p, b)
    ensures Matches(Rotated(p, b), s.(current := [], next := false, full := s.full + [s.current]))
  {
    RotatedSeparates(p, s, b);
    PutsAllElsewhere(p.held, p.full, s.full, b, []);
    PutsAllElsewhere(p.held, p.batch, s.batch, b, []);
    PutsAllMore(p.held[b := []], p.full, s.full, p.current, s.current);
  }

  lemma PutsAllMore(held: map<FixedBuffer, P.Chunk>, bs: seq<FixedBuffer>, chunks: seq<P.Chunk>,
                    b: FixedBuffer, chunk: P.Chunk)
    requires PutsAll(held, bs, chunks) && b in held && held[b] == chunk
    ensures PutsAll(held, bs + [b], chunks + [chunk])
  {
  }

  lemma RotatedSeparates(p: Places, s: P.State, b: FixedBuffer)
    requires Matches(p, s) && Spare(p, b)
    ensures Separate(Rotated(p, b))
  {
    assert p.next == null ==> Outside(b, p.full) && Outside(b, p.batch);
  }

  /** What an append to a full buffer comes to, with `b` as the buffer to go on with. */
  function Appended(p: Places, b: FixedBuffer, m: P.Message): Places {
    Rewritten(Rotated(p, b), if P.LARGE_BUFFER > |m| then [m] else [])
  }

  lemma AppendedMatches(p: Places, s: P.State, b: FixedBuffer, m: P.Message)
    requires Matches(p, s) && Spare(p, b) && P.Avail(s.current) <= |m|
    ensures Matches(Appended(p, b, m), P.AppendStep(s, m))
  {
    var t := s.(current := [], next := false, full := s.full + [s.current]);
    RotatedMatches(p, s, b);
    RewrittenMatches(Rotated(p, b), t, if P.LARGE_BUFFER > |m| then [m] else []);
  }

  /** Four different empty buffers to start with. */
  lemma InitMatches(b1: FixedBuffer, b2: FixedBuffer, b3: FixedBuffer, b4: FixedBuffer)
    requires b1 != b2 && b1 != b3 && b1 != b4 && b2 != b3 && b2 != b4 && b3 != b4
    ensures Matches(Places(b1, b2, [], b3, b4, [], map[b1 := [], b2 := [], b3 := [], b4 := []]), P.Init())
  {
  }

  /** The swap: the backend has the queue and the current buffer, the producers have one spare, or
      both where they had used up their next buffer. */
  function Swapped(p: Places): Places
    requires p.spare1 != null
  {
    var batch := p.full + [p.current];
    if p.next == null then Places(p.spare1, p.spare2, [], null, null, batch, p.held)
    else Places(p.spare1, p.next, [], null, p.spare2, batch, p.held)
  }

  lemma SwappedMatches(p: Places, s: P.State)
    requires Matches(p, s) && p.spare1 != null && p.spare2 != null && p.batch == []
    ensures Matches(Swapped(p), P.SwapStep(s))
  {
    SwappedSeparates(p);
    PutsAllMore(p.held, p.full, s.full, p.current, s.current);
  }

  lemma SwappedSeparates(p: Places)
    requires Separate(p) && p.spare1 != null && p.spare2 != null && p.batch == []
    ensures Separate(Swapped(p))
  {
  }

  /** The backend lets go of all but the first `n` buffers of its batch. */
  function Shortened(p: Places, n: nat): Places
    requires n <= |p.batch|
  {
    p.(batch := p.batch[..n])
  }

  lemma ShortenedMatches(p: Places, s: P.State, n: nat)
    requires Matches(p, s) && n <= |p.batch|
    ensures Matches(Shortened(p, n), s.(batch := s.batch[..n]))
  {
  }

  /** The last buffer of the batch, emptied, has become a spare. */
  function Popped(p: Places): Places
    requires p.batch != []
  {
    var n := |p.batch| - 1;
    p.(batch := p.batch[..n], held := p.held[p.batch[n] := []])
  }

  function Recycled1(p: Places): Places
    requires p.batch != []
  {
    Popped(p).(spare1 := p.batch[|p.batch| - 1])
  }

  function Recycled2(p: Places): Places
    requires p.batch != []
  {
    Popped(p).(spare2 := p.batch[|p.batch| - 1])
  }

  lemma PoppedMatches(p: Places, s: P.State)
    requires Matches(p, s) && p.batch != []
    ensures Matches(Popped(p), s.(batch := P.ButLast(s.batch)))
    ensures var b := p.batch[|p.batch| - 1];
            && Differ(b, p.current) && Differ(b, p.next) && Outside(b, p.full)
            && Differ(b, p.spare1) && Differ(b, p.spare2) && Outside(b, Popped(p).batch)
  {
    var n := |p.batch| - 1;
    ShortenedMatches(p, s, n);
    PutsAllElsewhere(p.held, p.full, s.full, p.batch[n], []);
    PutsAllElsewhere(p.held, p.batch[..n], s.batch[..n], p.batch[n], []);
  }

  lemma RecycledMatches(p: Places, s: P.State)
    requires Matches(p, s) && p.batch != []
    ensures p.spare1 == null ==> Matches(Recycled1(p), s.(spare1 := true, batch := P.ButLast(s.batch)))
    ensures p.spare2 == null ==> Matches(Recycled2(p), s.(spare2 := true, batch := P.ButLast(s.batch)))
  {
    PoppedMatches(p, s);
  }
}
