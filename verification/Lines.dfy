/** Cutting a stream into lines as it arrives, with a bound on how long a line may grow. */
module Lines {
  import C = Common

  /** A finished cut: the complete chunks, and what is left waiting for a line end. */
  datatype Drained = Drained(chunks: seq<string>, rest: string)

  /** The first position of a character of ends, or the length of s. */
  function IndexEnd(s: string, ends: set<char>): (i: nat)
    ensures i <= |s|
    ensures forall j :: 0 <= j < i ==> s[j] !in ends
    ensures i < |s| ==> s[i] in ends
  {
    if s == "" || s[0] in ends then 0 else 1 + IndexEnd(s[1..], ends)
  }

  predicate FreeOf(s: string, ends: set<char>) {
    forall i :: 0 <= i < |s| ==> s[i] !in ends
  }

  /** The length of the next chunk of a buffer, or 0 if it has to wait. */
  function ChunkLength(buf: string, ends: set<char>, max: nat): (n: nat)
    requires max > 0
    ensures n <= |buf|
    ensures n == 0 <==> |buf| < max && FreeOf(buf, ends)
  {
    var i := IndexEnd(buf, ends);
    if i < |buf| then i + 1 else if i < max then 0 else max
  }

  /** What a writer emits from its buffer: each line with its end, and a piece of max bytes of an overlong line. */
  function Drain(buf: string, ends: set<char>, max: nat): Drained
    requires max > 0
    decreases |buf|
  {
    var n := ChunkLength(buf, ends, max);
    if n == 0 then Drained([], buf)
    else
      var more := Drain(buf[n..], ends, max);
      Drained([buf[..n]] + more.chunks, more.rest)
  }

  function Concat(parts: seq<string>): string {
    if parts == [] then "" else parts[0] + Concat(parts[1..])
  }

  lemma {:induction false} ConcatAppend(a: seq<string>, b: seq<string>)
    ensures Concat(a + b) == Concat(a) + Concat(b)
  {
    if a == [] {
      assert a + b == b;
    } else {
      assert (a + b)[1..] == a[1..] + b;
      ConcatAppend(a[1..], b);
      C.Regroup(a[0], Concat(a[1..]), Concat(b));
    }
  }

  lemma ConcatCons(first: string, rest: seq<string>)
    ensures Concat([first] + rest) == first + Concat(rest)
  {
    assert ([first] + rest)[1..] == rest;
  }

  /** No byte is lost or reordered, and what stays behind is short and free of line ends. */
  lemma {:induction false} DrainConserves(buf: string, ends: set<char>, max: nat)
    requires max > 0
    ensures var d := Drain(buf, ends, max);
            Concat(d.chunks) + d.rest == buf && |d.rest| < max && FreeOf(d.rest, ends)
    decreases |buf|
  {
    var n := ChunkLength(buf, ends, max);
    if n > 0 {
      DrainConserves(buf[n..], ends, max);
      var more := Drain(buf[n..], ends, max);
      ConcatCons(buf[..n], more.chunks);
      Rejoin(buf, n, Concat(more.chunks), more.rest);
    } else {
      assert "" + buf == buf;
    }
  }

  lemma Rejoin(buf: string, n: nat, a: string, b: string)
    requires n <= |buf| && a + b == buf[n..]
    ensures (buf[..n] + a) + b == buf
  {
    assert (buf[..n] + a) + b == buf[..n] + (a + b);
  }

  /** Between line ends the stream never runs on for max bytes. */
  ghost predicate ShortRuns(s: string, ends: set<char>, max: nat) {
    forall i, j :: 0 <= i <= j <= |s| && FreeOf(s[i..j], ends) ==> j - i < max
  }

  lemma ShortRunsRest(s: string, n: nat, ends: set<char>, max: nat)
    requires ShortRuns(s, ends, max) && n <= |s|
    ensures ShortRuns(s[n..], ends, max)
  {
    forall i, j | 0 <= i <= j <= |s[n..]| && FreeOf(s[n..][i..j], ends)
      ensures j - i < max
    {
      assert s[n..][i..j] == s[n + i..n + j];
    }
  }

  /** Without overlong lines, draining in two goes is draining in one. */
  lemma {:induction false} DrainInTwo(a: string, b: string, ends: set<char>, max: nat)
    requires max > 0 && ShortRuns(a + b, ends, max)
    ensures InTwo(a, b, ends, max)
    decreases |a|
  {
    if IndexEnd(a, ends) == |a| {
      ShortPrefix(a, b, ends, max);
      NothingFirst(Drain(a + b, ends, max));
    } else {
      var n := IndexEnd(a, ends) + 1;
      assert (a + b)[n..] == a[n..] + b;
      ShortRunsRest(a + b, n, ends, max);
      DrainInTwo(a[n..], b, ends, max);
      PeelBoth(a, b, n, ends, max);
    }
  }

  predicate InTwo(a: string, b: string, ends: set<char>, max: nat)
    requires max > 0
  {
    var first := Drain(a, ends, max);
    var second := Drain(first.rest + b, ends, max);
    Drain(a + b, ends, max) == Drained(first.chunks + second.chunks, second.rest)
  }

  lemma PeelBoth(a: string, b: string, n: nat, ends: set<char>, max: nat)
    requires max > 0 && n == IndexEnd(a, ends) + 1 <= |a| && InTwo(a[n..], b, ends, max)
    ensures InTwo(a, b, ends, max)
  {
    EndOfPrefix(a, b, ends);
    Peel(a, n, ends, max);
    PeelLonger(a, b, n, ends, max);
    var first := Drain(a[n..], ends, max);
    Glue(a[..n], first, Drain(a, ends, max), Drain(first.rest + b, ends, max), Drain(a + b, ends, max));
  }

  lemma PeelLonger(a: string, b: string, n: nat, ends: set<char>, max: nat)
    requires max > 0 && n <= |a| && n == ChunkLength(a + b, ends, max) > 0
    ensures var more := Drain(a[n..] + b, ends, max);
            Drain(a + b, ends, max) == Drained([a[..n]] + more.chunks, more.rest)
  {
    Peel(a + b, n, ends, max);
    assert (a + b)[n..] == a[n..] + b;
    assert (a + b)[..n] == a[..n];
  }

  lemma Glue(c: string, first: Drained, one: Drained, second: Drained, both: Drained)
    requires one == Drained([c] + first.chunks, first.rest)
    requires both == Drained([c] + (first.chunks + second.chunks), second.rest)
    ensures both == Drained(one.chunks + second.chunks, second.rest)
  {
    C.Regroup([c], first.chunks, second.chunks);
  }

  lemma Peel(buf: string, n: nat, ends: set<char>, max: nat)
    requires max > 0 && n == ChunkLength(buf, ends, max) > 0
    ensures Drain(buf, ends, max) ==
            Drained([buf[..n]] + Drain(buf[n..], ends, max).chunks, Drain(buf[n..], ends, max).rest)
  {
  }

  /** One turn of a writer's loop: its next chunk is the next one of the whole drain. */
  lemma NextChunk(d: Drained, k: nat, buf: string, n: nat, ends: set<char>, max: nat)
    requires max > 0 && n == ChunkLength(buf, ends, max) && k <= |d.chunks|
    requires Drain(buf, ends, max) == Drained(d.chunks[k..], d.rest)
    ensures n == 0 ==> k == |d.chunks| && d.rest == buf
    ensures n > 0 ==>
              && k < |d.chunks| && d.chunks[k] == buf[..n]
              && Drain(buf[n..], ends, max) == Drained(d.chunks[k + 1..], d.rest)
              && buf[n..] == Concat(d.chunks[k + 1..]) + d.rest
  {
    if n > 0 {
      Peel(buf, n, ends, max);
      var more := Drain(buf[n..], ends, max);
      var left := d.chunks[k..];
      assert left == [buf[..n]] + more.chunks;
      assert left[0] == buf[..n] && left[1..] == more.chunks;
      assert left[1..] == d.chunks[k + 1..];
      DrainConserves(buf[n..], ends, max);
    }
  }

  lemma NothingFirst(d: Drained)
    ensures d == Drained([] + d.chunks, d.rest)
  {
  }

  lemma ShortPrefix(a: string, b: string, ends: set<char>, max: nat)
    requires ShortRuns(a + b, ends, max) && FreeOf(a, ends)
    ensures |a| < max
  {
    assert (a + b)[0..|a|] == a;
  }

  lemma {:induction false} EndOfPrefix(a: string, b: string, ends: set<char>)
    requires IndexEnd(a, ends) < |a|
    ensures IndexEnd(a + b, ends) == IndexEnd(a, ends)
  {
    if a[0] !in ends {
      assert (a + b)[1..] == a[1..] + b;
      EndOfPrefix(a[1..], b, ends);
    }
  }

  /** The chunks emitted by a sequence of writes, and what is left. */
  function Feed(buf: string, writes: seq<string>, ends: set<char>, max: nat): Drained
    requires max > 0
    decreases |writes|
  {
    if writes == [] then Drained([], buf)
    else
      var d := Drain(buf + writes[0], ends, max);
      var more := Feed(d.rest, writes[1..], ends, max);
      Drained(d.chunks + more.chunks, more.rest)
  }

  lemma DrainSettled(buf: string, ends: set<char>, max: nat)
    requires |buf| < max && FreeOf(buf, ends)
    ensures Drain(buf, ends, max) == Drained([], buf)
  {
  }

  /** However the stream is cut into writes, the chunks are those of the whole stream. */
  lemma {:induction false} FeedIsDrain(buf: string, writes: seq<string>, ends: set<char>, max: nat)
    requires max > 0 && |buf| < max && FreeOf(buf, ends)
    requires ShortRuns(buf + Concat(writes), ends, max)
    ensures Feed(buf, writes, ends, max) == Drain(buf + Concat(writes), ends, max)
    decreases |writes|
  {
    if writes == [] {
      assert buf + "" == buf;
      DrainSettled(buf, ends, max);
    } else {
      var a, b := buf + writes[0], Concat(writes[1..]);
      assert buf + Concat(writes) == a + b;
      DrainInTwo(a, b, ends, max);
      RestIsShort(a, b, ends, max);
      FeedIsDrain(Drain(a, ends, max).rest, writes[1..], ends, max);
    }
  }

  lemma RestIsShort(a: string, b: string, ends: set<char>, max: nat)
    requires max > 0 && ShortRuns(a + b, ends, max)
    ensures var rest := Drain(a, ends, max).rest;
            |rest| < max && FreeOf(rest, ends) && ShortRuns(rest + b, ends, max)
  {
    DrainConserves(a, ends, max);
    var d := Drain(a, ends, max);
    var gone := Concat(d.chunks);
    assert (a + b)[|gone|..] == d.rest + b;
    ShortRunsRest(a + b, |gone|, ends, max);
  }

  predicate IsLine(c: string, ends: set<char>) {
    c != "" && c[|c| - 1] in ends && FreeOf(c[..|c| - 1], ends)
  }

  /** Without overlong lines every chunk is one line with its end. */
  lemma {:induction false} ChunksAreLines(buf: string, ends: set<char>, max: nat)
    requires max > 0 && ShortRuns(buf, ends, max)
    ensures forall k :: 0 <= k < |Drain(buf, ends, max).chunks| ==> IsLine(Drain(buf, ends, max).chunks[k], ends)
    decreases |buf|
  {
    var i := IndexEnd(buf, ends);
    if i == |buf| {
      assert buf + "" == buf;
      ShortPrefix(buf, "", ends, max);
      DrainSettled(buf, ends, max);
    } else {
      Peel(buf, i + 1, ends, max);
      FirstIsLine(buf, ends);
      ShortRunsRest(buf, i + 1, ends, max);
      ChunksAreLines(buf[i + 1..], ends, max);
    }
  }

  lemma FirstIsLine(buf: string, ends: set<char>)
    requires IndexEnd(buf, ends) < |buf|
    ensures IsLine(buf[..IndexEnd(buf, ends) + 1], ends)
  {
  }

  /** A piece of an overlong line. */
  predicate IsPiece(c: string, ends: set<char>, max: nat) {
    |c| == max && FreeOf(c, ends)
  }

  ghost predicate LinesOrPieces(chunks: seq<string>, ends: set<char>, max: nat) {
    forall k :: 0 <= k < |chunks| ==> IsLine(chunks[k], ends) || IsPiece(chunks[k], ends, max)
  }

  /** In any stream a chunk is a line with its end, or a piece of exactly max bytes cut off an overlong line. */
  lemma {:induction false} DrainKinds(buf: string, ends: set<char>, max: nat)
    requires max > 0
    ensures LinesOrPieces(Drain(buf, ends, max).chunks, ends, max)
    decreases |buf|
  {
    var n := ChunkLength(buf, ends, max);
    if n > 0 {
      Peel(buf, n, ends, max);
      if IndexEnd(buf, ends) < |buf| {
        FirstIsLine(buf, ends);
      }
      DrainKinds(buf[n..], ends, max);
    }
  }

  lemma {:induction false} FeedKinds(buf: string, writes: seq<string>, ends: set<char>, max: nat)
    requires max > 0
    ensures LinesOrPieces(Feed(buf, writes, ends, max).chunks, ends, max)
    decreases |writes|
  {
    if writes != [] {
      DrainKinds(buf + writes[0], ends, max);
      FeedKinds(Drain(buf + writes[0], ends, max).rest, writes[1..], ends, max);
    }
  }

  /** Whatever is written comes out or is left, in order. */
  lemma {:induction false} FeedConserves(buf: string, writes: seq<string>, ends: set<char>, max: nat)
    requires max > 0
    ensures var d := Feed(buf, writes, ends, max); Concat(d.chunks) + d.rest == buf + Concat(writes)
    decreases |writes|
  {
    if writes == [] {
      assert "" + buf == buf == buf + "";
    } else {
      var d := Drain(buf + writes[0], ends, max);
      var more := Feed(d.rest, writes[1..], ends, max);
      DrainConserves(buf + writes[0], ends, max);
      FeedConserves(d.rest, writes[1..], ends, max);
      ConcatAppend(d.chunks, more.chunks);
      C.Regroup(Concat(d.chunks), Concat(more.chunks), more.rest);
      C.Regroup(Concat(d.chunks), d.rest, Concat(writes[1..]));
      C.Regroup(buf, writes[0], Concat(writes[1..]));
    }
  }

  /** One more write of a stream, when the chunks of the earlier ones are done. */
  lemma FeedStep(buf: string, writes: seq<string>, i: nat, done: seq<string>, ends: set<char>, max: nat)
    requires max > 0 && i < |writes|
    ensures var d := Drain(buf + writes[i], ends, max);
            var now, more := Feed(buf, writes[i..], ends, max), Feed(d.rest, writes[i + 1..], ends, max);
            now.rest == more.rest && done + now.chunks == (done + d.chunks) + more.chunks
  {
    assert writes[i..][1..] == writes[i + 1..];
    var d := Drain(buf + writes[i], ends, max);
    var more := Feed(d.rest, writes[i + 1..], ends, max);
    assert done + (d.chunks + more.chunks) == (done + d.chunks) + more.chunks;
  }
}
