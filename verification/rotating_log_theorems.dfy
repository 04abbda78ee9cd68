/** What the rotated log promises over whole runs: where the stream is cut does not depend on how it
    is chunked, no byte is lost or reordered, and every file is bounded. */
module RotatingLogTheorems {
  import opened RotatingLog
  import opened Sequences

  /** A run of writes, and the bytes it wrote. */
  function FeedAll(max: nat, log: Log, chunks: seq<Bytes>): Log
    decreases |chunks|
  {
    if chunks == [] then log else FeedAll(max, Feed(max, log, chunks[0]), chunks[1..])
  }

  function Concat(chunks: seq<Bytes>): Bytes {
    if chunks == [] then [] else chunks[0] + Concat(chunks[1..])
  }

  function After(closed: seq<Bytes>, log: Log): Log {
    log.(closed := closed + log.closed)
  }

  /** One past the first newline at file offset max - 1 or later; -1 when the stream has none. */
  function LineCut(max: nat, stream: Bytes): (cut: int)
    requires 1 <= max
    ensures cut == -1 || max <= cut <= |stream|
    ensures cut != -1 ==> stream[cut - 1] == NEWLINE && forall j :: max - 1 <= j < cut - 1 ==> stream[j] != NEWLINE
    ensures cut == -1 ==> forall j :: max - 1 <= j < |stream| ==> stream[j] != NEWLINE
  {
    if |stream| < max then -1
    else
      var idx := IndexNewline(stream, max - 1);
      if idx < 0 then -1 else idx + 1
  }

  /** The split that only ever cuts after a newline. */
  function Greedy(max: nat, stream: Bytes): Log
    requires 1 <= max
    decreases |stream|
  {
    var cut := LineCut(max, stream);
    if cut < 0 then Log([], stream) else After([stream[..cut]], Greedy(max, stream[cut..]))
  }

  /** The split of a stream handed over in one write: after a newline as long as there is one to come,
      then every 2 * max bytes. */
  function Canonical(max: nat, stream: Bytes): Log
    requires 1 <= max
    decreases |stream|
  {
    var cut := LineCut(max, stream);
    if cut >= 0 then After([stream[..cut]], Canonical(max, stream[cut..]))
    else if |stream| < 2 * max then Log([], stream)
    else After([stream[..2 * max]], Canonical(max, stream[2 * max..]))
  }

  /** Cutting only after newlines, no file goes past the hard ceiling before its newline comes. */
  ghost predicate WithinCeiling(max: nat, stream: Bytes)
    requires 1 <= max
  {
    forall file | file in Greedy(max, stream).closed :: |file| <= 2 * max
  }

  /** Every max + 1 consecutive bytes hold a newline; lines of at most max bytes make it so. */
  ghost predicate ShortLines(max: nat, stream: Bytes) {
    forall i: nat | i + max < |stream| :: NewlineWithin(stream, i, max)
  }

  ghost predicate NewlineWithin(stream: Bytes, first: nat, span: nat) {
    exists j :: first <= j <= first + span && j < |stream| && stream[j] == NEWLINE
  }

  /** An active file between writes: below the ceiling, with no newline where it should have rotated. */
  ghost predicate Unrotated(max: nat, active: Bytes) {
    |active| < 2 * max && forall j :: max - 1 <= j < |active| ==> active[j] != NEWLINE
  }

  // ---- Where the stream is cut -----------------------------------------------------------------

  lemma {:induction false} FeedIsCanonical(max: nat, log: Log, data: Bytes)
    requires 1 <= max && Unrotated(max, log.active)
    ensures Feed(max, log, data) == After(log.closed, Canonical(max, log.active + data))
    decreases |data|
  {
    if data == [] {
      Empty(log.active);
      assert LineCut(max, log.active) == -1;
    } else {
      var cut := RotationCut(max, |log.active|, data);
      CutAgrees(max, log.active, data);
      if cut >= 0 {
        var piece := log.active + data[..cut];
        CutIsFirst(max, log.active, data);
        CanonicalPeel(max, log.active, data, cut);
        FeedIsCanonical(max, Log(log.closed + [piece], []), data[cut..]);
        Empty(data[cut..]);
        Associative(log.closed, [piece], Canonical(max, data[cut..]).closed);
      }
    }
  }

  lemma CanonicalPeel(max: nat, a: Bytes, data: Bytes, cut: nat)
    requires 1 <= max && cut <= |data| && FirstCut(max, a + data, |a| + cut)
    ensures Canonical(max, a + data) == After([a + data[..cut]], Canonical(max, data[cut..]))
  {
    CutSecond(a, data, cut);
    CanonicalParts(max, a + data, |a| + cut, a + data[..cut], data[cut..]);
  }

  lemma CanonicalParts(max: nat, s: Bytes, k: nat, first: Bytes, rest: Bytes)
    requires 1 <= max && FirstCut(max, s, k) && s[..k] == first && s[k..] == rest
    ensures Canonical(max, s) == After([first], Canonical(max, rest))
  {
    CanonicalHead(max, s, k);
  }

  lemma CutIsFirst(max: nat, a: Bytes, data: Bytes)
    requires 1 <= max && data != [] && Unrotated(max, a)
    requires RotationCut(max, |a|, data) >= 0
    ensures FirstCut(max, a + data, |a| + RotationCut(max, |a|, data))
  {
    CutAgrees(max, a, data);
  }

  lemma CutAgrees(max: nat, a: Bytes, data: Bytes)
    requires 1 <= max && data != [] && Unrotated(max, a)
    ensures var stream, cut := a + data, RotationCut(max, |a|, data);
            var line := LineCut(max, stream);
            if line >= 0 then cut == line - |a|
            else if |stream| < 2 * max then cut == -1
            else cut == 2 * max - |a|
  {
    var stream := a + data;
    assert forall j :: 0 <= j < |data| ==> stream[|a| + j] == data[j];
    assert forall j :: 0 <= j < |a| ==> stream[j] == a[j];
    var line := LineCut(max, stream);
    if line >= 0 {
      assert stream[line - 1] == NEWLINE;
      assert line - 1 >= |a|;
      assert data[line - 1 - |a|] == NEWLINE;
      assert forall j :: Max(max - |a| - 1, 0) <= j < line - 1 - |a| ==> data[j] == stream[|a| + j] != NEWLINE;
    } else {
      assert forall j :: Max(max - |a| - 1, 0) <= j < |data| ==> data[j] == stream[|a| + j] != NEWLINE;
    }
  }

  lemma {:induction false} CanonicalUnrotated(max: nat, stream: Bytes)
    requires 1 <= max
    ensures Unrotated(max, Canonical(max, stream).active)
    decreases |stream|
  {
    var cut := LineCut(max, stream);
    if cut >= 0 {
      CanonicalUnrotated(max, stream[cut..]);
    } else if |stream| >= 2 * max {
      CanonicalUnrotated(max, stream[2 * max..]);
    }
  }

  lemma LineCutExtends(max: nat, s: Bytes, d: Bytes)
    requires 1 <= max
    ensures LineCut(max, s) >= 0 ==> LineCut(max, s + d) == LineCut(max, s)
    ensures LineCut(max, s) < 0 && LineCut(max, s + d) >= 0 ==> LineCut(max, s + d) > |s|
  {
    var k, m := LineCut(max, s), LineCut(max, s + d);
    assert forall j :: 0 <= j < |s| ==> (s + d)[j] == s[j];
    if k >= 0 {
      assert (s + d)[k - 1] == NEWLINE;
    }
  }

  /** Within the ceiling, what was written first never changes how the rest is cut. */
  lemma {:induction false} CanonicalExtends(max: nat, s: Bytes, d: Bytes)
    requires 1 <= max && WithinCeiling(max, s + d)
    ensures var c := Canonical(max, s);
            Canonical(max, s + d) == After(c.closed, Canonical(max, c.active + d))
    decreases |s|
  {
    LineCutExtends(max, s, d);
    var cut := LineCut(max, s);
    if cut >= 0 {
      TailWithin(max, s + d, cut);
      CutFirst(s, d, cut);
      PeelExtends(max, s, d, cut);
    } else if |s| >= 2 * max {
      FirstFileWithin(max, s + d);
      NoNewlineNoCut(max, (s + d)[2 * max..]);
      CutFirst(s, d, 2 * max);
      PeelExtends(max, s, d, 2 * max);
    }
  }

  lemma FirstFileWithin(max: nat, s: Bytes)
    requires 1 <= max && WithinCeiling(max, s)
    ensures LineCut(max, s) <= 2 * max
  {
    var g := Greedy(max, s);
    if g.closed != [] {
      assert g.closed[0] in g.closed;
    }
  }

  /** Where the first file of a stream ends. */
  ghost predicate FirstCut(max: nat, s: Bytes, k: nat)
    requires 1 <= max
  {
    1 <= k <= |s| && (LineCut(max, s) == k || (LineCut(max, s) == -1 && k == 2 * max))
  }

  lemma CanonicalHead(max: nat, s: Bytes, k: nat)
    requires 1 <= max && FirstCut(max, s, k)
    ensures Canonical(max, s) == After([s[..k]], Canonical(max, s[k..]))
  {
  }

  lemma TailWithin(max: nat, s: Bytes, k: nat)
    requires 1 <= max && WithinCeiling(max, s) && k == LineCut(max, s)
    ensures WithinCeiling(max, s[k..])
  {
    var g, tail := Greedy(max, s), Greedy(max, s[k..]);
    assert g.closed == [s[..k]] + tail.closed;
    assert forall file | file in tail.closed :: file in g.closed;
  }

  lemma PeelExtends(max: nat, s: Bytes, d: Bytes, k: nat)
    requires 1 <= max && FirstCut(max, s, k) && FirstCut(max, s + d, k)
    requires WithinCeiling(max, s[k..] + d)
    ensures var c := Canonical(max, s);
            Canonical(max, s + d) == After(c.closed, Canonical(max, c.active + d))
    decreases |s|, 0
  {
    CutFirst(s, d, k);
    CanonicalHead(max, s, k);
    CanonicalHead(max, s + d, k);
    CanonicalExtends(max, s[k..], d);
    var c := Canonical(max, s[k..]);
    Associative([s[..k]], c.closed, Canonical(max, c.active + d).closed);
  }

  lemma NoNewlineNoCut(max: nat, s: Bytes)
    requires 1 <= max && Quiet(s)
    ensures LineCut(max, s) == -1 && WithinCeiling(max, s)
  {
    assert LineCut(max, s) == -1;
  }

  lemma {:induction false} RunIsCanonical(max: nat, done: Bytes, chunks: seq<Bytes>)
    requires 1 <= max && WithinCeiling(max, done + Concat(chunks))
    ensures FeedAll(max, Canonical(max, done), chunks) == Canonical(max, done + Concat(chunks))
    decreases |chunks|
  {
    if chunks == [] {
      Empty(done);
    } else {
      var d, rest := chunks[0], Concat(chunks[1..]);
      Associative(done, d, rest);
      CeilingOfPrefix(max, done + d, rest);
      CanonicalExtends(max, done, d);
      CanonicalUnrotated(max, done);
      FeedIsCanonical(max, Canonical(max, done), d);
      RunIsCanonical(max, done + d, chunks[1..]);
    }
  }

  lemma {:induction false} CeilingOfPrefix(max: nat, s: Bytes, d: Bytes)
    requires 1 <= max && WithinCeiling(max, s + d)
    ensures WithinCeiling(max, s)
    decreases |s|
  {
    LineCutExtends(max, s, d);
    var k := LineCut(max, s);
    if k >= 0 {
      CutFirst(s, d, k);
      TailWithin(max, s + d, k);
      FirstFileWithin(max, s + d);
      CeilingOfPrefix(max, s[k..], d);
      assert Greedy(max, s).closed == [s[..k]] + Greedy(max, s[k..]).closed;
    }
  }

  /** The two splits close a different file somewhere, and the first has nothing open there. */
  ghost predicate Diverge(head: Log, whole: Log) {
    && head.active == [] && 1 <= |head.closed| <= |whole.closed|
    && head.closed[|head.closed| - 1] != whole.closed[|head.closed| - 1]
  }

  ghost predicate DivergeAt(max: nat, s: Bytes, m: nat)
    requires 1 <= max
  {
    m <= |s| && Diverge(Canonical(max, s[..m]), Canonical(max, s))
  }

  /** A stream with a file past the ceiling can be broken at a place where one write would not cut. */
  lemma {:induction false} SplitAtCeiling(max: nat, s: Bytes)
    requires 1 <= max && !WithinCeiling(max, s)
    ensures exists m :: DivergeAt(max, s, m)
    decreases |s|
  {
    var k := LineCut(max, s);
    if k > 2 * max {
      ForcedAtCeiling(max, s);
    } else {
      CeilingBeyond(max, s, k);
      var rest := s[k..];
      SplitAtCeiling(max, rest);
      var n :| DivergeAt(max, rest, n);
      DivergeLater(max, s, k, rest, n);
    }
  }

  lemma CeilingBeyond(max: nat, s: Bytes, k: int)
    requires 1 <= max && !WithinCeiling(max, s) && k == LineCut(max, s) <= 2 * max
    ensures 0 < k <= |s| && !WithinCeiling(max, s[k..])
  {
  }

  lemma ForcedAtCeiling(max: nat, s: Bytes)
    requires 1 <= max && LineCut(max, s) > 2 * max
    ensures DivergeAt(max, s, 2 * max)
  {
    var head := s[..2 * max];
    assert LineCut(max, head) == -1;
    assert head[2 * max..] == [] && head[..2 * max] == head;
    assert LineCut(max, []) == -1;
    assert Canonical(max, head) == After([head], Log([], []));
  }

  lemma DivergeLater(max: nat, s: Bytes, k: nat, rest: Bytes, n: nat)
    requires 1 <= max && LineCut(max, s) == k && rest == s[k..]
    requires DivergeAt(max, rest, n)
    ensures DivergeAt(max, s, k + n)
  {
    var head := s[..k + n];
    assert head[..k] == s[..k] && head[k..] == s[k..][..n];
    LineCutOfPrefix(max, s, k + n);
    CanonicalHead(max, head, k);
    CanonicalHead(max, s, k);
    DivergeAfter(s[..k], Canonical(max, s[k..][..n]), Canonical(max, s[k..]));
  }

  lemma DivergeAfter(file: Bytes, head: Log, whole: Log)
    requires Diverge(head, whole)
    ensures Diverge(After([file], head), After([file], whole))
  {
  }

  lemma LineCutOfPrefix(max: nat, s: Bytes, m: nat)
    requires 1 <= max && 0 <= LineCut(max, s) <= m <= |s|
    ensures LineCut(max, s[..m]) == LineCut(max, s)
  {
    var k := LineCut(max, s);
    assert s[..m][k - 1] == NEWLINE;
  }

  lemma DivergenceShows(max: nat, s: Bytes, m: nat)
    requires 1 <= max && DivergeAt(max, s, m)
    ensures FeedAll(max, EMPTY_LOG, [s[..m], s[m..]]) != Canonical(max, s)
  {
    var c, n := Canonical(max, s[..m]), |Canonical(max, s[..m]).closed| - 1;
    FeedFromEmpty(max, s[..m]);
    FeedExtends(max, c, s[m..]);
    FeedPair(max, EMPTY_LOG, s[..m], s[m..]);
    assert Feed(max, c, s[m..]).closed[..|c.closed|][n] == c.closed[n];
  }

  lemma FeedFromEmpty(max: nat, data: Bytes)
    requires 1 <= max
    ensures Feed(max, EMPTY_LOG, data) == Canonical(max, data)
  {
    FeedIsCanonical(max, EMPTY_LOG, data);
    Empty(data);
    Empty(Canonical(max, data).closed);
  }

  lemma FeedExtends(max: nat, log: Log, data: Bytes)
    requires 1 <= max && Unrotated(max, log.active)
    ensures var after := Feed(max, log, data);
            |log.closed| <= |after.closed| && after.closed[..|log.closed|] == log.closed
  {
    FeedIsCanonical(max, log, data);
  }

  lemma FeedPair(max: nat, log: Log, d: Bytes, e: Bytes)
    ensures FeedAll(max, log, [d, e]) == Feed(max, Feed(max, log, d), e)
  {
    assert [d, e] == [d] + [e] && [e] == [e] + [];
    FeedFirst(max, log, d, [e]);
    FeedFirst(max, Feed(max, log, d), e, []);
  }

  lemma FeedFirst(max: nat, log: Log, d: Bytes, more: seq<Bytes>)
    ensures FeedAll(max, log, [d] + more) == FeedAll(max, Feed(max, log, d), more)
  {
    assert ([d] + more)[1..] == more;
  }

  /** The split `stream` gets whatever chunks it is written in. */
  ghost predicate ChunkingIndependent(max: nat, stream: Bytes)
    requires 1 <= max
  {
    forall chunks | Concat(chunks) == stream :: FeedAll(max, EMPTY_LOG, chunks) == Canonical(max, stream)
  }

  /** Chunking independence, exactly: every way of writing a stream in chunks cuts it like one write if
      and only if the newline-only split of the stream stays within the ceiling. */
  lemma ChunkingIndependence(max: nat, stream: Bytes)
    requires 1 <= max
    ensures WithinCeiling(max, stream) <==> ChunkingIndependent(max, stream)
  {
    if WithinCeiling(max, stream) {
      forall chunks | Concat(chunks) == stream
        ensures FeedAll(max, EMPTY_LOG, chunks) == Canonical(max, stream)
      {
        AnyChunking(max, chunks);
      }
    } else {
      SomeChunking(max, stream);
    }
  }

  lemma SomeChunking(max: nat, stream: Bytes)
    requires 1 <= max && !WithinCeiling(max, stream)
    ensures !ChunkingIndependent(max, stream)
  {
    SplitAtCeiling(max, stream);
    var m: nat :| DivergeAt(max, stream, m);
    TwoChunks(max, stream, m);
  }

  lemma TwoChunks(max: nat, stream: Bytes, m: nat)
    requires 1 <= max && DivergeAt(max, stream, m)
    ensures !ChunkingIndependent(max, stream)
  {
    var chunks := [stream[..m], stream[m..]];
    DivergenceShows(max, stream, m);
    ConcatPair(stream[..m], stream[m..]);
    assert stream[..m] + stream[m..] == stream;
  }

  lemma ConcatPair(d: Bytes, e: Bytes)
    ensures Concat([d, e]) == d + e
  {
    assert [d, e][1..] == [e] && Concat([e]) == e + [] == e;
  }

  lemma AnyChunking(max: nat, chunks: seq<Bytes>)
    requires 1 <= max && WithinCeiling(max, Concat(chunks))
    ensures FeedAll(max, EMPTY_LOG, chunks) == Canonical(max, Concat(chunks))
  {
    Empty(Concat(chunks));
    assert LineCut(max, []) == -1;
    RunIsCanonical(max, [], chunks);
  }

  /** With short lines the forced mid-line cut is never taken: the split is the newline-only one. */
  lemma {:induction false} ShortLinesNeverForced(max: nat, stream: Bytes)
    requires 1 <= max && ShortLines(max, stream)
    ensures WithinCeiling(max, stream)
    ensures Canonical(max, stream) == Greedy(max, stream)
    ensures forall file | file in Greedy(max, stream).closed :: max <= |file| && file[|file| - 1] == 10 as byte
    decreases |stream|
  {
    var cut := LineCut(max, stream);
    ShortLinesCutEarly(max, stream);
    if cut >= 0 {
      ShortLinesTail(max, stream, cut);
      ShortLinesNeverForced(max, stream[cut..]);
    }
  }

  lemma ShortLinesCutEarly(max: nat, stream: Bytes)
    requires 1 <= max && ShortLines(max, stream)
    ensures LineCut(max, stream) <= 2 * max
    ensures |stream| >= 2 * max ==> LineCut(max, stream) >= 0
  {
    if |stream| >= 2 * max {
      assert NewlineWithin(stream, max - 1, max);
    }
  }

  lemma ShortLinesTail(max: nat, stream: Bytes, cut: nat)
    requires ShortLines(max, stream) && cut <= |stream|
    ensures ShortLines(max, stream[cut..])
  {
    var rest := stream[cut..];
    forall i: nat | i + max < |rest| ensures NewlineWithin(rest, i, max) {
      assert NewlineWithin(stream, cut + i, max);
      var j :| cut + i <= j <= cut + i + max && j < |stream| && stream[j] == NEWLINE;
      assert rest[j - cut] == NEWLINE;
    }
  }

  // ---- How large the files get -----------------------------------------------------------------

  /** What Write leaves in a file it rotates: at least max bytes, ending at a newline (10) or at the ceiling,
      and past the ceiling by less than the chunk that brought the newline. */
  ghost predicate RotatedFile(max: nat, chunk: nat, file: Bytes) {
    && 1 <= max <= |file| <= Max(2 * max, 2 * max - 1 + chunk)
    && (file[|file| - 1] == 10 as byte || |file| == 2 * max)
  }

  lemma {:induction false} FeedBounds(max: nat, log: Log, data: Bytes, chunk: nat)
    requires 1 <= max && |data| <= chunk && Unrotated(max, log.active)
    requires forall file | file in log.closed :: RotatedFile(max, chunk, file)
    ensures var after := Feed(max, log, data);
            && Unrotated(max, after.active)
            && forall file | file in after.closed :: RotatedFile(max, chunk, file)
    decreases |data|
  {
    if data != [] {
      CutAgrees(max, log.active, data);
      var cut := RotationCut(max, |log.active|, data);
      if cut >= 0 {
        FeedBounds(max, Log(log.closed + [log.active + data[..cut]], []), data[cut..], chunk);
      }
    }
  }

  /** Size bounds over any run of writes of at most `chunk` bytes each. */
  lemma {:induction false} RunBounds(max: nat, log: Log, chunks: seq<Bytes>, chunk: nat)
    requires 1 <= max && Unrotated(max, log.active)
    requires forall file | file in log.closed :: RotatedFile(max, chunk, file)
    requires forall data | data in chunks :: |data| <= chunk
    ensures var after := FeedAll(max, log, chunks);
            && Unrotated(max, after.active)
            && forall file | file in after.closed :: RotatedFile(max, chunk, file)
    decreases |chunks|
  {
    if chunks != [] {
      FeedBounds(max, log, chunks[0], chunk);
      RunBounds(max, Feed(max, log, chunks[0]), chunks[1..], chunk);
    }
  }

  ghost predicate Below(max: nat, files: seq<Bytes>) {
    forall file | file in files :: |file| <= 2 * max
  }

  /** No file of a run goes past the ceiling the source documents. */
  ghost predicate KeepsDocumentedCeiling(max: nat, chunks: seq<Bytes>) {
    Below(max, FeedAll(max, EMPTY_LOG, chunks).closed)
  }

  /** Each write finds the active file such that, with the chunk behind it, every newline that closes a file
      comes before the ceiling. */
  ghost predicate WritesWithinCeiling(max: nat, log: Log, chunks: seq<Bytes>)
    requires 1 <= max
    decreases |chunks|
  {
    chunks == [] ||
    (WithinCeiling(max, log.active + chunks[0]) && WritesWithinCeiling(max, Feed(max, log, chunks[0]), chunks[1..]))
  }

  /** The documented ceiling of 2 * maxSize holds for a run of writes if and only if no write brings a newline
      that closes a file past it: the newline branch is not clipped. */
  lemma DocumentedCeiling(max: nat, chunks: seq<Bytes>)
    requires 1 <= max
    ensures KeepsDocumentedCeiling(max, chunks) <==> WritesWithinCeiling(max, EMPTY_LOG, chunks)
  {
    CeilingFrom(max, EMPTY_LOG, chunks);
  }

  lemma {:induction false} CeilingFrom(max: nat, log: Log, chunks: seq<Bytes>)
    requires 1 <= max && Unrotated(max, log.active)
    ensures Below(max, FeedAll(max, log, chunks).closed)
            <==> Below(max, log.closed) && WritesWithinCeiling(max, log, chunks)
    decreases |chunks|
  {
    if chunks != [] {
      var d := chunks[0];
      FeedIsCanonical(max, log, d);
      CanonicalUnrotated(max, log.active + d);
      CanonicalBelow(max, log.active + d);
      BelowConcat(max, log.closed, Canonical(max, log.active + d).closed);
      CeilingFrom(max, Feed(max, log, d), chunks[1..]);
    }
  }

  lemma BelowConcat(max: nat, a: seq<Bytes>, b: seq<Bytes>)
    ensures Below(max, a + b) <==> Below(max, a) && Below(max, b)
  {
    assert forall file :: file in a + b <==> file in a || file in b;
  }

  /** One write keeps the ceiling if and only if the newline-only split does. */
  lemma {:induction false} CanonicalBelow(max: nat, s: Bytes)
    requires 1 <= max
    ensures Below(max, Canonical(max, s).closed) <==> WithinCeiling(max, s)
    decreases |s|
  {
    var cut := LineCut(max, s);
    if cut >= 0 {
      CanonicalBelow(max, s[cut..]);
      BelowConcat(max, [s[..cut]], Canonical(max, s[cut..]).closed);
      BelowConcat(max, [s[..cut]], Greedy(max, s[cut..]).closed);
    } else if |s| >= 2 * max {
      NoNewlineNoCut(max, s[2 * max..]);
      CanonicalBelow(max, s[2 * max..]);
      BelowConcat(max, [s[..2 * max]], Canonical(max, s[2 * max..]).closed);
    }
  }

  /** So it holds for short lines, however they are chunked. */
  lemma CeilingForShortLines(max: nat, chunks: seq<Bytes>)
    requires 1 <= max && ShortLines(max, Concat(chunks))
    ensures KeepsDocumentedCeiling(max, chunks)
  {
    ShortLinesNeverForced(max, Concat(chunks));
    AnyChunking(max, chunks);
  }

  /** It holds for every run of chunks of at most `chunk` bytes if and only if chunks are single bytes. */
  lemma CeilingForAllChunks(max: nat, chunk: nat)
    requires 1 <= max
    ensures chunk <= 1 <==> forall chunks | AtMost(chunk, chunks) :: KeepsDocumentedCeiling(max, chunks)
  {
    if chunk <= 1 {
      forall chunks | AtMost(chunk, chunks) ensures KeepsDocumentedCeiling(max, chunks) {
        RunBounds(max, EMPTY_LOG, chunks, chunk);
      }
    } else {
      var chunks := PastCeiling(max, 2 * max - 1);
      assert AtMost(chunk, chunks);
      assert !KeepsDocumentedCeiling(max, chunks);
    }
  }

  ghost predicate AtMost(chunk: nat, chunks: seq<Bytes>) {
    forall data | data in chunks :: |data| <= chunk
  }

  /** n single bytes without a newline, then a two-byte chunk that ends with one. */
  lemma {:induction false} PastCeiling(max: nat, n: nat) returns (chunks: seq<Bytes>)
    requires 1 <= max && n == 2 * max - 1
    ensures forall data | data in chunks :: |data| <= 2
    ensures !KeepsDocumentedCeiling(max, chunks)
  {
    var quiet: Bytes := seq(n, _ => 0);
    var last: Bytes := [0, NEWLINE];
    chunks := Singles(quiet) + [last];
    SinglesAccumulate(max, [], quiet, [last]);
    Empty(quiet);
    var stream := quiet + last;
    LateNewline(max, stream);
    FeedIsCanonical(max, Log([], quiet), last);
    Empty([stream]);
    Empty([last]);
    FeedFirst(max, Log([], quiet), last, []);
    assert FeedAll(max, EMPTY_LOG, chunks).closed == [stream];
    assert stream in FeedAll(max, EMPTY_LOG, chunks).closed;
  }

  lemma LateNewline(max: nat, stream: Bytes)
    requires 1 <= max && |stream| == 2 * max + 1
    requires Quiet(stream[..2 * max]) && stream[2 * max] == NEWLINE
    ensures Canonical(max, stream) == Log([stream], [])
  {
    assert forall j | 0 <= j < 2 * max :: stream[j] == stream[..2 * max][j];
    assert LineCut(max, stream) == 2 * max + 1;
    CanonicalHead(max, stream, 2 * max + 1);
    assert stream[..2 * max + 1] == stream && stream[2 * max + 1..] == [];
    assert LineCut(max, []) == -1;
    Empty([stream]);
  }

  function Singles(data: Bytes): (chunks: seq<Bytes>)
    ensures forall chunk | chunk in chunks :: |chunk| == 1
  {
    if data == [] then [] else [data[..1]] + Singles(data[1..])
  }

  ghost predicate Quiet(data: Bytes) {
    forall j :: 0 <= j < |data| ==> data[j] != NEWLINE
  }

  lemma {:induction false} SinglesAccumulate(max: nat, a: Bytes, data: Bytes, more: seq<Bytes>)
    requires 1 <= max && |a| + |data| < 2 * max
    requires Quiet(a) && Quiet(data)
    ensures FeedAll(max, Log([], a), Singles(data) + more) == FeedAll(max, Log([], a + data), more)
    decreases |data|
  {
    if data == [] {
      Empty(more);
      Empty(a);
    } else {
      var d, rest := data[..1], Singles(data[1..]) + more;
      QuietFeed(max, a, d);
      Associative([d], Singles(data[1..]), more);
      FeedFirst(max, Log([], a), d, rest);
      SinglesAccumulate(max, a + d, data[1..], more);
      Associative(a, d, data[1..]);
      assert d + data[1..] == data;
    }
  }

  lemma QuietFeed(max: nat, a: Bytes, d: Bytes)
    requires 1 <= max && |a| + |d| < 2 * max && Quiet(a) && Quiet(d)
    ensures Feed(max, Log([], a), d) == Log([], a + d)
  {
    FeedIsCanonical(max, Log([], a), d);
    NoNewlineNoCut(max, a + d);
    Empty(Canonical(max, a + d).closed);
  }

  // ---- What the directory holds ----------------------------------------------------------------

  function RunDisk(max: nat, backups: nat, disk: Disk, chunks: seq<Bytes>): Disk
    requires 0 in disk
    decreases |chunks|
  {
    if chunks == [] then disk else RunDisk(max, backups, WriteDisk(max, backups, disk, chunks[0]), chunks[1..])
  }

  /** The directory after the closed files of `log` have gone through slot 0 and its active file sits there. */
  function Install(disk: Disk, backups: nat, log: Log): Disk
    decreases |log.closed|
  {
    if log.closed == [] then disk[0 := log.active]
    else Install(Shift(disk[0 := log.closed[0]], backups), backups, log.(closed := log.closed[1..]))
  }

  lemma {:induction false} InstallIgnoresActive(disk: Disk, backups: nat, x: Bytes, log: Log)
    ensures Install(disk[0 := x], backups, log) == Install(disk, backups, log)
  {
    if log.closed == [] {
      assert disk[0 := x][0 := log.active] == disk[0 := log.active];
    } else {
      assert disk[0 := x][0 := log.closed[0]] == disk[0 := log.closed[0]];
    }
  }

  lemma {:induction false} FeedFromEmptyCloses(max: nat, log: Log, data: Bytes)
    ensures Feed(max, log, data) == After(log.closed, Feed(max, log.(closed := []), data))
    decreases |data|
  {
    if data != [] {
      var cut := RotationCut(max, |log.active|, data);
      if cut >= 0 {
        var piece := log.active + data[..cut];
        FeedFromEmptyCloses(max, Log(log.closed + [piece], []), data[cut..]);
        FeedFromEmptyCloses(max, Log([] + [piece], []), data[cut..]);
        Empty([piece]);
        Associative(log.closed, [piece], Feed(max, Log([], []), data[cut..]).closed);
      }
    }
  }

  lemma {:induction false} WriteInstalls(max: nat, backups: nat, disk: Disk, data: Bytes)
    requires 0 in disk
    ensures WriteDisk(max, backups, disk, data) == Install(disk, backups, Feed(max, Log([], disk[0]), data))
    decreases |data|
  {
    if data == [] {
      assert disk == disk[0 := disk[0]];
    } else {
      var cut := RotationCut(max, |disk[0]|, data);
      if cut >= 0 {
        var piece, rest := disk[0] + data[..cut], data[cut..];
        var shifted := Shift(disk[0 := piece], backups);
        WriteInstalls(max, backups, shifted[0 := []], rest);
        InstallIgnoresActive(shifted, backups, [], Feed(max, EMPTY_LOG, rest));
        FeedFromEmptyCloses(max, Log([] + [piece], []), rest);
        var log := Feed(max, Log([], disk[0]), data);
        assert log.closed == [piece] + Feed(max, EMPTY_LOG, rest).closed;
        assert log.closed[1..] == Feed(max, EMPTY_LOG, rest).closed;
      }
    }
  }

  lemma {:induction false} InstallTwice(disk: Disk, backups: nat, log: Log, more: Log)
    ensures Install(Install(disk, backups, log), backups, more) == Install(disk, backups, After(log.closed, more))
    decreases |log.closed|
  {
    if log.closed == [] {
      InstallIgnoresActive(disk, backups, log.active, more);
      assert [] + more.closed == more.closed;
    } else {
      var shifted := Shift(disk[0 := log.closed[0]], backups);
      InstallTwice(shifted, backups, log.(closed := log.closed[1..]), more);
      assert (log.closed + more.closed)[1..] == log.closed[1..] + more.closed;
    }
  }

  lemma {:induction false} InstalledActive(disk: Disk, backups: nat, log: Log)
    ensures 0 in Install(disk, backups, log) && Install(disk, backups, log)[0] == log.active
    decreases |log.closed|
  {
    if log.closed != [] {
      InstalledActive(Shift(disk[0 := log.closed[0]], backups), backups, log.(closed := log.closed[1..]));
    }
  }

  lemma {:induction false} RunInstalls(max: nat, backups: nat, disk: Disk, log: Log, chunks: seq<Bytes>)
    ensures 0 in Install(disk, backups, log)
    ensures RunDisk(max, backups, Install(disk, backups, log), chunks)
            == Install(disk, backups, FeedAll(max, log, chunks))
    decreases |chunks|
  {
    InstalledActive(disk, backups, log);
    if chunks != [] {
      var next := Feed(max, log, chunks[0]);
      WriteInstalls(max, backups, Install(disk, backups, log), chunks[0]);
      FeedFromEmptyCloses(max, log, chunks[0]);
      InstallTwice(disk, backups, log, Feed(max, log.(closed := []), chunks[0]));
      RunInstalls(max, backups, disk, next, chunks[1..]);
    }
  }

  /** Same stream, any two chunkings, same files: names and contents. */
  lemma SameFiles(max: nat, backups: nat, disk: Disk, one: seq<Bytes>, other: seq<Bytes>)
    requires 1 <= max && 0 in disk && disk[0] == []
    requires Concat(one) == Concat(other) && WithinCeiling(max, Concat(one))
    ensures RunDisk(max, backups, disk, one) == RunDisk(max, backups, disk, other)
            == Install(disk, backups, Canonical(max, Concat(one)))
  {
    assert Install(disk, backups, EMPTY_LOG) == disk;
    RunInstalls(max, backups, disk, EMPTY_LOG, one);
    RunInstalls(max, backups, disk, EMPTY_LOG, other);
    ChunkingIndependence(max, Concat(one));
  }

  function Slot(disk: Disk, i: nat): Bytes {
    if i in disk then disk[i] else []
  }

  /** The content of slots k down to 0: oldest first, the active file last. */
  function Chain(disk: Disk, k: nat): Bytes {
    if k == 0 then Slot(disk, 0) else Slot(disk, k) + Chain(disk, k - 1)
  }

  /** The bytes one write drops off the end of the backup chain, in order. */
  function Dropped(max: nat, backups: nat, disk: Disk, data: Bytes): Bytes
    requires 0 in disk
    decreases |data|
  {
    if data == [] then []
    else
      var cut := RotationCut(max, |disk[0]|, data);
      if cut < 0 then []
      else
        var full := disk[0 := disk[0] + data[..cut]];
        Slot(full, backups) + Dropped(max, backups, Shift(full, backups)[0 := []], data[cut..])
  }

  function DroppedBy(max: nat, backups: nat, disk: Disk, chunks: seq<Bytes>): Bytes
    requires 0 in disk
    decreases |chunks|
  {
    if chunks == [] then []
    else Dropped(max, backups, disk, chunks[0])
         + DroppedBy(max, backups, WriteDisk(max, backups, disk, chunks[0]), chunks[1..])
  }

  lemma {:induction false} ChainAppend(disk: Disk, k: nat, data: Bytes)
    requires 0 in disk
    ensures Chain(disk[0 := disk[0] + data], k) == Chain(disk, k) + data
  {
    if k > 0 {
      ChainAppend(disk, k - 1, data);
      assert (Slot(disk, k) + Chain(disk, k - 1)) + data == Slot(disk, k) + (Chain(disk, k - 1) + data);
    }
  }

  lemma {:induction false} ChainMoved(was: Disk, now: Disk, k: nat)
    requires Slot(now, 0) == [] && forall i | 1 <= i <= k :: Slot(now, i) == Slot(was, i - 1)
    ensures Chain(now, k) == if k == 0 then [] else Chain(was, k - 1)
  {
    if k > 0 {
      ChainMoved(was, now, k - 1);
      if k == 1 {
        assert Slot(was, 0) + [] == Slot(was, 0);
      }
    }
  }

  /** A rotation moves the chain up: only the oldest slot leaves it. */
  lemma ShiftChain(disk: Disk, backups: nat)
    ensures Slot(disk, backups) + Chain(Shift(disk, backups)[0 := []], backups) == Chain(disk, backups)
  {
    var now := Shift(disk, backups)[0 := []];
    forall i | 1 <= i <= backups ensures Slot(now, i) == Slot(disk, i - 1) {
      ShiftedSlot(disk, backups, i);
    }
    ChainMoved(disk, now, backups);
    if backups == 0 {
      assert Slot(disk, 0) + [] == Slot(disk, 0);
    }
  }

  lemma {:induction false} WriteConserves(max: nat, backups: nat, disk: Disk, data: Bytes)
    requires 0 in disk
    ensures Dropped(max, backups, disk, data) + Chain(WriteDisk(max, backups, disk, data), backups)
            == Chain(disk, backups) + data
    decreases |data|
  {
    if data == [] {
      assert Chain(disk, backups) + [] == Chain(disk, backups) == [] + Chain(disk, backups);
    } else {
      var cut := RotationCut(max, |disk[0]|, data);
      if cut < 0 {
        ChainAppend(disk, backups, data);
        assert [] + Chain(disk[0 := disk[0] + data], backups) == Chain(disk, backups) + data;
      } else {
        WriteConserves(max, backups, Shift(disk[0 := disk[0] + data[..cut]], backups)[0 := []], data[cut..]);
        RotationConserves(max, backups, disk, data, cut);
      }
    }
  }

  lemma RotationConserves(max: nat, backups: nat, disk: Disk, data: Bytes, cut: nat)
    requires 0 in disk && data != [] && cut == RotationCut(max, |disk[0]|, data)
    requires var next := Shift(disk[0 := disk[0] + data[..cut]], backups)[0 := []];
             Dropped(max, backups, next, data[cut..]) + Chain(WriteDisk(max, backups, next, data[cut..]), backups)
             == Chain(next, backups) + data[cut..]
    ensures Dropped(max, backups, disk, data) + Chain(WriteDisk(max, backups, disk, data), backups)
            == Chain(disk, backups) + data
  {
    var full := disk[0 := disk[0] + data[..cut]];
    var next := Shift(full, backups)[0 := []];
    var lost := Dropped(max, backups, next, data[cut..]);
    var left := Chain(WriteDisk(max, backups, next, data[cut..]), backups);
    ChainAppend(disk, backups, data[..cut]);
    ShiftChain(full, backups);
    Regroup(Slot(full, backups), lost, left, Chain(next, backups), Chain(disk, backups), data[..cut], data[cut..]);
    assert data[..cut] + data[cut..] == data;
  }

  /** Byte conservation over any run: what was dropped, then the backups from the oldest, then the active
      file, is what the directory held followed by everything written, in order. */
  lemma {:induction false} RunConserves(max: nat, backups: nat, disk: Disk, chunks: seq<Bytes>)
    requires 0 in disk
    ensures DroppedBy(max, backups, disk, chunks) + Chain(RunDisk(max, backups, disk, chunks), backups)
            == Chain(disk, backups) + Concat(chunks)
    decreases |chunks|
  {
    if chunks == [] {
      assert [] + Chain(disk, backups) == Chain(disk, backups) + [];
    } else {
      var d, more := chunks[0], chunks[1..];
      var next := WriteDisk(max, backups, disk, d);
      var lost, later := Dropped(max, backups, disk, d), DroppedBy(max, backups, next, more);
      var left := Chain(RunDisk(max, backups, next, more), backups);
      calc {
        (lost + later) + left;
        { Associative(lost, later, left); RunConserves(max, backups, next, more); }
        lost + (Chain(next, backups) + Concat(more));
        { Associative(lost, Chain(next, backups), Concat(more)); WriteConserves(max, backups, disk, d); }
        (Chain(disk, backups) + d) + Concat(more);
        { Associative(Chain(disk, backups), d, Concat(more)); }
        Chain(disk, backups) + Concat(chunks);
      }
    }
  }

  /** No slot past `backups`, and no file past `limit` bytes. */
  ghost predicate Bounded(disk: Disk, backups: nat, limit: nat) {
    forall i | i in disk :: i <= backups && |disk[i]| <= limit
  }

  function TotalSize(disk: Disk, k: nat): nat {
    |Slot(disk, k)| + if k == 0 then 0 else TotalSize(disk, k - 1)
  }

  lemma {:induction false} InstallBounded(disk: Disk, backups: nat, log: Log, limit: nat)
    requires Bounded(disk, backups, limit)
    requires |log.active| <= limit && forall file | file in log.closed :: |file| <= limit
    ensures Bounded(Install(disk, backups, log), backups, limit)
    decreases |log.closed|
  {
    if log.closed != [] {
      var full := disk[0 := log.closed[0]];
      forall i | i in Shift(full, backups) ensures i <= backups && |Shift(full, backups)[i]| <= limit {
        ShiftedSlot(full, backups, i);
      }
      InstallBounded(Shift(full, backups), backups, log.(closed := log.closed[1..]), limit);
    }
  }

  /** At most backups + 1 files, each below 2 * max + chunk, and the directory below their product, when
      the directory a session finds is itself within those bounds. */
  lemma RunStaysBounded(max: nat, backups: nat, disk: Disk, chunks: seq<Bytes>, chunk: nat)
    requires 1 <= max && 0 in disk && disk[0] == []
    requires forall data | data in chunks :: |data| <= chunk
    requires Bounded(disk, backups, Max(2 * max, 2 * max - 1 + chunk))
    ensures var after, limit := RunDisk(max, backups, disk, chunks), Max(2 * max, 2 * max - 1 + chunk);
            Bounded(after, backups, limit) && TotalSize(after, backups) <= (backups + 1) * limit
  {
    var limit := Max(2 * max, 2 * max - 1 + chunk);
    assert Install(disk, backups, EMPTY_LOG) == disk;
    RunInstalls(max, backups, disk, EMPTY_LOG, chunks);
    RunBounds(max, EMPTY_LOG, chunks, chunk);
    var log := FeedAll(max, EMPTY_LOG, chunks);
    forall file | file in log.closed ensures |file| <= limit {
      assert RotatedFile(max, chunk, file);
    }
    InstallBounded(disk, backups, log, limit);
    TotalBounded(RunDisk(max, backups, disk, chunks), backups, backups, limit);
  }

  lemma {:induction false} TotalBounded(disk: Disk, backups: nat, k: nat, limit: nat)
    requires Bounded(disk, backups, limit)
    ensures TotalSize(disk, k) <= (k + 1) * limit
  {
    if k > 0 {
      TotalBounded(disk, backups, k - 1, limit);
      assert (k + 1) * limit == k * limit + limit;
    }
  }
}
