/** The writer that hands command output on one complete line at a time. */
module LineWriter {
  import opened Lines

  const NEWLINE: set<char> := {'\n'}
  const MAX_LINE: nat := 65536

  /** A chunk as it is emitted: a piece of an overlong line gets the newline it lacks. */
  function Terminate(chunk: string): (line: string)
    ensures line != "" && line[|line| - 1] == '\n' && (line == chunk || line == chunk + "\n")
    ensures chunk != "" && chunk[|chunk| - 1] == '\n' ==> line == chunk
  {
    if chunk != "" && chunk[|chunk| - 1] == '\n' then chunk else chunk + "\n"
  }

  function TerminateAll(chunks: seq<string>): seq<string> {
    if chunks == [] then [] else TerminateAll(chunks[..|chunks| - 1]) + [Terminate(chunks[|chunks| - 1])]
  }

  lemma {:induction false} TerminateAppend(a: seq<string>, b: seq<string>)
    ensures TerminateAll(a + b) == TerminateAll(a) + TerminateAll(b)
    decreases |b|
  {
    if b == [] {
      assert a + b == a;
    } else {
      assert (a + b)[..|a + b| - 1] == a + b[..|b| - 1];
      TerminateAppend(a, b[..|b| - 1]);
    }
  }

  lemma TerminateSnoc(before: seq<string>, chunks: seq<string>, k: nat)
    requires k < |chunks|
    ensures before + TerminateAll(chunks[..k]) + [Terminate(chunks[k])] == before + TerminateAll(chunks[..k + 1])
  {
    var upTo := chunks[..k + 1];
    assert upTo[..|upTo| - 1] == chunks[..k] && upTo[|upTo| - 1] == chunks[k];
  }

  /** What has been put out raw once these chunks were emitted, each behind the prefix; a handler leaves it alone. */
  function RawAfter(handled: bool, prefix: string, before: string, chunks: seq<string>): string {
    if handled || chunks == [] then before
    else RawAfter(handled, prefix, before, chunks[..|chunks| - 1]) + prefix + Terminate(chunks[|chunks| - 1])
  }

  lemma RawSnoc(handled: bool, prefix: string, before: string, chunks: seq<string>, k: nat)
    requires k < |chunks|
    ensures var raw := RawAfter(handled, prefix, before, chunks[..k]);
            RawAfter(handled, prefix, before, chunks[..k + 1]) ==
            if handled then raw else raw + prefix + Terminate(chunks[k])
  {
    var upTo := chunks[..k + 1];
    assert upTo[..|upTo| - 1] == chunks[..k] && upTo[|upTo| - 1] == chunks[k];
  }

  class LineWriter {
    const handled: bool                // whether lines go to a handler instead of a raw writer
    const prefix: string
    const fails: nat -> bool           // whether the raw writer rejects its n-th write
    var buf: string
    var attempts: nat
    var lines: seq<string>             // the lines emitted
    var raw: string                    // what the raw writer has accepted

    constructor (handled: bool, prefix: string, fails: nat -> bool)
      ensures buf == "" && lines == [] && raw == ""
      ensures this.handled == handled && this.prefix == prefix && this.fails == fails
    {
      this.handled, this.prefix, this.fails := handled, prefix, fails;
      buf, attempts, lines, raw := "", 0, [], "";
    }

    /** What is shown, and behind it the prefix of a line that was rejected itself. */
    ghost predicate RawIs(shown: string, ok: bool)
      reads this`raw
    {
      raw == shown || (!ok && !handled && raw == shown + prefix)
    }

    method Put(text: string) returns (ok: bool)
      modifies this`attempts, this`raw
      ensures raw == if ok then old(raw) + text else old(raw)
      ensures (forall n :: !fails(n)) ==> ok
    {
      ok := !fails(attempts);
      attempts := attempts + 1;
      if ok {
        raw := raw + text;
      }
    }

    /** One line, to the handler or behind the prefix; if the line itself is rejected its prefix is out already. */
    method Emit(line: string) returns (ok: bool)
      modifies this`attempts, this`lines, this`raw
      ensures lines == if ok then old(lines) + [line] else old(lines)
      ensures handled ==> ok
      ensures ok ==> raw == if handled then old(raw) else old(raw) + prefix + line
      ensures !ok ==> RawIs(old(raw), false)
      ensures (forall n :: !fails(n)) ==> ok
    {
      ok := true;
      if !handled {
        ok := Put(prefix);
        if ok {
          ok := Put(line);
        }
      }
      if ok {
        lines := lines + [line];
      }
    }

    /** The next of the chunks that a write emits, when the earlier ones have been. */
    method EmitChunk(line: string, ghost chunks: seq<string>, ghost k: nat, ghost lines0: seq<string>,
                     ghost raw0: string)
      returns (ok: bool)
      requires k < |chunks| && line == Terminate(chunks[k])
      requires lines == lines0 + TerminateAll(chunks[..k]) && raw == RawAfter(handled, prefix, raw0, chunks[..k])
      modifies this`attempts, this`lines, this`raw
      ensures ok ==> lines == lines0 + TerminateAll(chunks[..k + 1])
      ensures ok ==> raw == RawAfter(handled, prefix, raw0, chunks[..k + 1])
      ensures !ok ==> lines == old(lines) && RawIs(old(raw), false)
      ensures (forall n :: !fails(n)) ==> ok
    {
      TerminateSnoc(lines0, chunks, k);
      RawSnoc(handled, prefix, raw0, chunks, k);
      ok := Emit(line);
    }

    /**
     Emits all that is complete and keeps the rest. If the sink rejects a line, that line is dropped
     and everything behind it stays buffered, so it is not emitted twice.
     */
    method Write(p: string) returns (ok: bool, ghost accepted: nat)
      modifies this
      ensures var d := Drain(old(buf) + p, NEWLINE, MAX_LINE);
              && accepted <= |d.chunks| && (ok <==> accepted == |d.chunks|)
              && lines == old(lines) + TerminateAll(d.chunks[..accepted])
              && RawIs(RawAfter(handled, prefix, old(raw), d.chunks[..accepted]), ok)
              && buf == if ok then d.rest else Concat(d.chunks[accepted + 1..]) + d.rest
      ensures (forall n :: !fails(n)) ==> ok
    {
      buf := buf + p;
      ghost var d := Drain(buf, NEWLINE, MAX_LINE);
      accepted := 0;
      assert d.chunks[..0] == [] && d.chunks[0..] == d.chunks;
      while true
        invariant accepted <= |d.chunks|
        invariant lines == old(lines) + TerminateAll(d.chunks[..accepted])
        invariant raw == RawAfter(handled, prefix, old(raw), d.chunks[..accepted])
        invariant Drain(buf, NEWLINE, MAX_LINE) == Drained(d.chunks[accepted..], d.rest)
        decreases |buf|
      {
        var n := ChunkLength(buf, NEWLINE, MAX_LINE);
        NextChunk(d, accepted, buf, n, NEWLINE, MAX_LINE);
        if n == 0 {
          return true, accepted;
        }
        var line := Terminate(buf[..n]);
        buf := buf[n..];
        var sent := EmitChunk(line, d.chunks, accepted, old(lines), old(raw));
        if !sent {
          return false, accepted;
        }
        accepted := accepted + 1;
      }
    }

    method Flush()
      modifies this
      ensures buf == ""
      ensures old(buf) == "" ==> lines == old(lines)
      ensures old(buf) == "" ==> raw == old(raw)
      ensures old(buf) != "" && (handled || forall n :: !fails(n)) ==>
                && lines == old(lines) + [old(buf) + "\n"]
                && raw == if handled then old(raw) else old(raw) + prefix + (old(buf) + "\n")
    {
      if |buf| == 0 {
        return;
      }
      var _ := Emit(buf + "\n");
      buf := "";
    }
  }

  /** The lines a sequence of writes and a final flush give a sink that accepts everything. */
  function LinesOf(writes: seq<string>): seq<string> {
    var d := Feed("", writes, NEWLINE, MAX_LINE);
    TerminateAll(d.chunks) + if d.rest == "" then [] else [d.rest + "\n"]
  }

  lemma StreamStep(buf: string, writes: seq<string>, i: nat, done: seq<string>, all: Drained)
    requires i < |writes|
    requires var left := Feed(buf, writes[i..], NEWLINE, MAX_LINE);
             left.rest == all.rest && done + left.chunks == all.chunks
    ensures var d := Drain(buf + writes[i], NEWLINE, MAX_LINE);
            var left := Feed(d.rest, writes[i + 1..], NEWLINE, MAX_LINE);
            && left.rest == all.rest && (done + d.chunks) + left.chunks == all.chunks
            && TerminateAll(done + d.chunks) == TerminateAll(done) + TerminateAll(d.chunks)
  {
    FeedStep(buf, writes, i, done, NEWLINE, MAX_LINE);
    TerminateAppend(done, Drain(buf + writes[i], NEWLINE, MAX_LINE).chunks);
  }

  /** A fresh writer computes it, write by write. */
  method Stream(handled: bool, prefix: string, writes: seq<string>) returns (lines: seq<string>)
    ensures lines == LinesOf(writes)
  {
    var w := new LineWriter(handled, prefix, n => false);
    ghost var done: seq<string> := [];
    ghost var all := Feed("", writes, NEWLINE, MAX_LINE);
    assert writes[0..] == writes && [] + all.chunks == all.chunks;
    for i := 0 to |writes|
      invariant fresh(w) && forall n :: !w.fails(n)
      invariant w.lines == TerminateAll(done)
      invariant Feed(w.buf, writes[i..], NEWLINE, MAX_LINE).rest == all.rest
      invariant done + Feed(w.buf, writes[i..], NEWLINE, MAX_LINE).chunks == all.chunks
    {
      StreamStep(w.buf, writes, i, done, all);
      ghost var d := Drain(w.buf + writes[i], NEWLINE, MAX_LINE);
      var ok, accepted := w.Write(writes[i]);
      assert d.chunks[..accepted] == d.chunks;
      done := done + d.chunks;
    }
    assert writes[|writes|..] == [] && done + [] == done;
    w.Flush();
    lines := w.lines;
  }

  /** Without overlong lines the emitted lines do not depend on how the stream was cut into writes. */
  lemma CutDoesNotMatter(writes: seq<string>, others: seq<string>)
    requires Concat(writes) == Concat(others) && ShortRuns(Concat(writes), NEWLINE, MAX_LINE)
    ensures LinesOf(writes) == LinesOf(others)
  {
    assert "" + Concat(writes) == Concat(writes) == "" + Concat(others);
    FeedIsDrain("", writes, NEWLINE, MAX_LINE);
    FeedIsDrain("", others, NEWLINE, MAX_LINE);
  }
}
